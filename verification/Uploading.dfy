/** The upload loop: fills buffers from the request body, replicates each as a chunk, and decides how it ended. */
module Uploading {
  import opened Bytes
  import opened Numerals
  import opened Framing
  import opened ChunkHeaders
  import opened RequestBody
  import opened Splitting
  import opened Storage
  import R = Replication

  /** The providers as an upload meets them: the candidates for a chunk and what each does with it. */
  datatype Net = Net(candidates: Piece -> nat, attempt: Piece -> R.Attempt, replicas: nat, sync: int)

  /** The replicas a chunk has when the upload goes on, and those that land later. */
  datatype Stored = Stored(replicas: seq<Replica>, late: seq<Replica>)

  datatype UploadError = Done | Rejected | Broken | Lost

  ghost predicate Taken(net: Net, p: Piece) {
    exists i: nat :: i < net.candidates(p) && net.attempt(p)(i).Some?
  }

  /** Every chunk finds a taker. */
  ghost predicate Willing(net: Net) {
    net.replicas >= 1 && forall p :: Taken(net, p)
  }

  ghost predicate SettledBy(net: Net, p: Piece, s: Stored, first: seq<nat>, later: seq<nat>, tried: nat) {
    && R.ReplicasOf(net.attempt(p), first, s.replicas) && R.ReplicasOf(net.attempt(p), later, s.late)
    && R.ShortestPrefix(net.attempt(p), net.candidates(p), net.replicas, tried)
    && NoDup(first + later) && first != []
    && (forall i: nat :: i in first + later <==> i < tried && net.attempt(p)(i).Some?)
  }

  /** The replicas are those of the shortest candidate prefix with enough takers, each once, whatever the schedule. */
  ghost predicate Settled(net: Net, p: Piece, s: Stored) {
    exists first, later, tried :: SettledBy(net, p, s, first, later, tried)
  }

  method StoreChunk(net: Net, p: Piece, cancellable: bool) returns (s: Option<Stored>)
    requires net.replicas >= 1
    ensures s.Some? ==> Settled(net, p, s.value) && Taken(net, p)
    ensures s.None? && !cancellable ==> !Taken(net, p)
  {
    ghost var first, later;
    var r, late, tried;
    r, late, tried, first, later := R.UploadChunk(net.candidates(p), net.attempt(p), net.replicas, net.sync,
      cancellable);
    if r.Stored? {
      s := Some(Stored(r.replicas, late));
      assert SettledBy(net, p, s.value, first, later, tried);
      assert first[0] in first + later;
    } else {
      s := None;
    }
  }

  /** How the upload of a body with that ending ends: an early end of the wire counts as the end of the body. */
  function Verdict(e: Ending): UploadError {
    match ErrorOf(e)
    case EndOfFile => Done
    case UnexpectedEnd => Done
    case Malformed => Broken
    case _ => Lost
  }

  ghost predicate AllSettled(net: Net, pieces: seq<Piece>, stored: seq<Stored>) {
    |stored| == |pieces| && forall i :: 0 <= i < |pieces| ==> Settled(net, pieces[i], stored[i])
  }

  /** How an upload of the chunks `all` can end: all stored and the verdict on the ending, or those before a refusal. */
  ghost predicate Ended(net: Net, all: seq<Piece>, end: Ending, pieces: seq<Piece>, err: UploadError,
                        cancellable: bool) {
    if err.Rejected? then
      |pieces| < |all| && pieces == all[..|pieces|] && (!cancellable ==> !Taken(net, all[|pieces|]))
    else
      pieces == all && err == Verdict(end)
  }

  ghost predicate Uploaded(net: Net, was: Stream, cs: nat, pieces: seq<Piece>, err: UploadError, cancellable: bool)
    requires cs > 0
  {
    Ended(net, Layout(Split(was.payload, cs), 0, 0), was.end, pieces, err, cancellable)
  }

  /** Cuts the body into chunks of cs bytes and replicates them one by one. */
  method Upload(body: Body, cs: nat, net: Net, cancellable: bool)
    returns (pieces: seq<Piece>, stored: seq<Stored>, err: UploadError)
    requires body.Valid() && cs > 0 && body.count == 0 && net.replicas >= 1
    modifies body
    ensures Uploaded(net, old(body.Meaning(cs)), cs, pieces, err, cancellable) && AllSettled(net, pieces, stored)
    ensures !err.Rejected? ==> body.count == |old(body.Meaning(cs)).payload|
  {
    ghost var was := body.Meaning(cs);
    pieces, stored, err := UploadFrom(body, cs, net, cancellable, was, Layout(Split(was.payload, cs), 0, 0));
  }

  method UploadFrom(body: Body, cs: nat, net: Net, cancellable: bool, ghost was: Stream, ghost all: seq<Piece>)
    returns (pieces: seq<Piece>, stored: seq<Stored>, err: UploadError)
    requires body.Valid() && cs > 0 && body.count == 0 && net.replicas >= 1 && body.Meaning(cs) == was
    requires LeftToStore(all, [], was.payload, cs, 0)
    modifies body
    ensures Ended(net, all, was.end, pieces, err, cancellable) && AllSettled(net, pieces, stored)
    ensures !err.Rejected? ==> body.count == |was.payload|
  {
    ghost var now := was;
    pieces, stored := [], [];
    var offset := 0;
    while true
      invariant body.Valid() && body.count == offset && body.Meaning(cs) == now
      invariant Underway(net, all, cs, pieces, stored, now, offset)
      invariant now.end == was.end && offset + |now.payload| == |was.payload|
      decreases |now.payload|
    {
      var buf, rerr, end;
      ghost var rest;
      buf, rerr, rest := NextBuffer(body, cs, now);
      pieces, stored, offset, end := StoreBuffer(net, cs, cancellable, pieces, stored, offset, buf, rerr, all, now,
        rest);
      if end.Some? {
        return pieces, stored, end.value;
      }
      now := rest;
    }
  }

  /** Between two buffers: the chunks stored so far and those of the rest are all chunks. */
  ghost predicate Underway(net: Net, all: seq<Piece>, cs: nat, pieces: seq<Piece>, stored: seq<Stored>, now: Stream,
                           offset: nat)
    requires cs > 0
  {
    offset % cs == 0 && AllSettled(net, pieces, stored) && LeftToStore(all, pieces, now.payload, cs, offset)
  }

  /** What filling a buffer says: a full one with more behind it, or the last one with the error of the body's end. */
  ghost predicate Filled(cs: nat, was: Stream, buf: bytes, err: ReadError, now: Stream) {
    && was == Prepend(buf, now) && |buf| <= cs
    && (err.Fine? ==> |buf| == cs)
    && (!err.Fine? ==> now.payload == [] && |buf| < cs && err == ShortError(buf, was.end))
  }

  /** Stores a buffer as the next chunk and sees whether it was the last. */
  method StoreBuffer(net: Net, cs: nat, cancellable: bool, pieces0: seq<Piece>, stored0: seq<Stored>, offset0: nat,
                     buf: bytes, rerr: ReadError, ghost all: seq<Piece>, ghost now0: Stream, ghost now: Stream)
    returns (pieces: seq<Piece>, stored: seq<Stored>, offset: nat, end: Option<UploadError>)
    requires cs > 0 && net.replicas >= 1 && Underway(net, all, cs, pieces0, stored0, now0, offset0)
    requires Filled(cs, now0, buf, rerr, now)
    ensures AllSettled(net, pieces, stored)
    ensures end.Some? ==> Ended(net, all, now0.end, pieces, end.value, cancellable)
    ensures end.Some? && !end.value.Rejected? ==> !rerr.Fine?
    ensures end.None? ==> offset == offset0 + |buf| && rerr.Fine? && Underway(net, all, cs, pieces, stored, now, offset)
  {
    pieces, stored, offset, end := pieces0, stored0, offset0, None;
    if |buf| > 0 {
      StoreNext(all, pieces, buf, now.payload, cs, offset);
      var ok;
      ok, pieces, stored := StoreMore(net, pieces, stored, Piece(|pieces|, offset, buf), cancellable);
      if !ok {
        end := Some(Rejected);
        return;
      }
      offset := offset + |buf|;
    }
    if rerr.Fine? {
      FullIsAligned(offset0, |buf|, cs);
    } else {
      NothingLeft(all, pieces, cs, offset);
      end := Some(if rerr.Malformed? then Broken else if rerr.Failed? then Lost else Done);
    }
  }

  method StoreMore(net: Net, pieces: seq<Piece>, stored: seq<Stored>, p: Piece, cancellable: bool)
    returns (ok: bool, pieces': seq<Piece>, stored': seq<Stored>)
    requires net.replicas >= 1 && AllSettled(net, pieces, stored)
    ensures AllSettled(net, pieces', stored')
    ensures pieces' == if ok then pieces + [p] else pieces
    ensures !ok && !cancellable ==> !Taken(net, p)
  {
    var s := StoreChunk(net, p, cancellable);
    if s.Some? {
      ok, pieces', stored' := true, pieces + [p], stored + [s.value];
    } else {
      ok, pieces', stored' := false, pieces, stored;
    }
  }

  /** One filled buffer, with what is left of the body behind it. */
  method NextBuffer(body: Body, cs: nat, ghost was: Stream) returns (buf: bytes, err: ReadError, ghost now: Stream)
    requires body.Valid() && cs > 0 && body.count % cs == 0 && body.Meaning(cs) == was
    modifies body
    ensures body.Valid() && body.count == old(body.count) + |buf|
    ensures Filled(cs, was, buf, err, now)
    ensures err.Fine? ==> body.Meaning(cs) == now
  {
    buf, err := ReadFull(body, cs);
    now := if err.Fine? then body.Meaning(cs) else Stream([], was.end);
  }

  /** `pieces` are stored and the chunks of `rest` are still to come. */
  ghost predicate LeftToStore(all: seq<Piece>, pieces: seq<Piece>, rest: bytes, cs: nat, offset: nat)
    requires cs > 0
  {
    all == pieces + Layout(Split(rest, cs), |pieces|, offset)
  }

  /** The next buffer is the next chunk: a full one, or a shorter one with nothing behind it. */
  lemma StoreNext(all: seq<Piece>, pieces: seq<Piece>, buf: bytes, rest: bytes, cs: nat, offset: nat)
    requires 0 < |buf| <= cs && (|buf| == cs || rest == []) && LeftToStore(all, pieces, buf + rest, cs, offset)
    ensures |pieces| < |all| && pieces == all[..|pieces|] && all[|pieces|] == Piece(|pieces|, offset, buf)
    ensures LeftToStore(all, pieces + [Piece(|pieces|, offset, buf)], rest, cs, offset + |buf|)
  {
    var whole := buf + rest;
    assert whole[..|buf|] == buf && whole[|buf|..] == rest;
    assert Split(whole, cs)[1..] == Split(rest, cs);
  }

  lemma NothingLeft(all: seq<Piece>, pieces: seq<Piece>, cs: nat, offset: nat)
    requires cs > 0 && LeftToStore(all, pieces, [], cs, offset)
    ensures all == pieces
  {
  }

  // ---------------------------------------------------------------- what becomes of a request body

  /** What a body over that input means to the upload loop. */
  ghost function MeaningOf(hv: SizeParser, chunked: bool, input: bytes, w: Wire, cs: nat): Stream {
    if chunked then Decode(hv, w, input, 0, 0, Full(cs)) else Stream(input, PlainEnd(w))
  }

  /** With a taker for every chunk, an upload stores the payload and its verdict depends on the ending alone. */
  method UploadAll(hv: SizeParser, chunked: bool, input: bytes, w: Wire, cs: nat, net: Net, ghost was: Stream)
    returns (pieces: seq<Piece>, stored: seq<Stored>, err: UploadError, got: nat)
    requires cs > 0 && Willing(net) && was == MeaningOf(hv, chunked, input, w, cs)
    ensures pieces == Layout(Split(was.payload, cs), 0, 0) && err == Verdict(was.end) && AllSettled(net, pieces, stored)
    ensures got == |was.payload|
  {
    var body := new Body(chunked, input, w, hv);
    pieces, stored, err := Upload(body, cs, net, false);
    got := body.count;
    WillingTakes(net, was, cs, pieces, err);
  }

  lemma WillingTakes(net: Net, was: Stream, cs: nat, pieces: seq<Piece>, err: UploadError)
    requires cs > 0 && Willing(net) && Uploaded(net, was, cs, pieces, err, false)
    ensures pieces == Layout(Split(was.payload, cs), 0, 0) && err == Verdict(was.end)
  {
  }

  /** A framed body is stored exactly, however the wire ends behind its zero-size header. */
  method UploadFramed(hv: SizeParser, frames: seq<Frame>, last: bytes, trailer: bytes, w: Wire, cs: nat, net: Net)
    returns (pieces: seq<Piece>, stored: seq<Stored>, err: UploadError)
    requires ValidFrames(hv, frames) && ValidHeader(hv, last, 0) && cs > 0 && Willing(net)
    ensures err.Done? && pieces == Layout(Split(Payload(frames), cs), 0, 0) && AllSettled(net, pieces, stored)
  {
    DecodeFramed(hv, w, frames, last, trailer, 0, Full(cs));
    ghost var was := Stream(Payload(frames), Clean);
    ghost var got;
    pieces, stored, err, got := UploadAll(hv, true, Framed(frames, last + CRLF + trailer), w, cs, net, was);
  }

  /** The same with the headers clients write and the gateway's own size parser. */
  method UploadSent(sent: seq<Sent>, ext: bytes, trailer: bytes, w: Wire, cs: nat, net: Net)
    returns (pieces: seq<Piece>, stored: seq<Stored>, err: UploadError)
    requires (forall i :: 0 <= i < |sent| ==> Sendable(sent[i])) && Extension(ext) && |ext| + 3 <= HEADER_LIMIT
    requires cs > 0 && Willing(net)
    ensures err.Done? && pieces == Layout(Split(Payload(AsFrames(sent)), cs), 0, 0) && AllSettled(net, pieces, stored)
  {
    SentIsValid(sent);
    HexHeader(0, ext);
    pieces, stored, err := UploadFramed(HeaderValue, AsFrames(sent), Render(0, 16) + ext, trailer, w, cs, net);
  }

  /** Whether a body cut at that place, after `at` payload bytes, is taken for a complete one. */
  predicate CutAccepted(w: Wire, place: Place, at: nat, cs: nat)
    requires cs > 0
  {
    w.end.Cuts? && (place.InTerminator? ==> (place.got == 0 && w.joint) || at % cs == 0)
  }

  lemma CutVerdict(w: Wire, place: Place, at: nat, cs: nat)
    requires cs > 0
    ensures var v := Verdict(CutEnding(w, place, at, Full(cs)));
            && (v.Done? <==> CutAccepted(w, place, at, cs))
            && (v.Lost? <==> w.end.Fails?)
            && (v.Done? || v.Lost? || v.Broken?)
  {
  }

  /**
   A framed body cut before the newline of its zero-size header: exactly the payload before the cut is
   stored.  It is taken for complete iff the wire reports an early end and the cut is not noticed while
   a chunk's line end is read: it lies in a header or in data, or the payload so far fills whole chunks,
   or the wire reported the end along with the last data.  A plain end is always noticed.
   */
  method UploadCut(hv: SizeParser, frames: seq<Frame>, last: bytes, n: nat, w: Wire, cs: nat, net: Net)
    returns (pieces: seq<Piece>, err: UploadError, got: nat)
    requires ValidFrames(hv, frames) && ValidHeader(hv, last, 0) && cs > 0 && Willing(net)
    requires n < |Framed(frames, last + CRLF)|
    ensures got == CutCount(frames, n) <= |Payload(frames)|
    ensures pieces == Layout(Split(Payload(frames)[..CutCount(frames, n)], cs), 0, 0)
    ensures err.Done? <==> CutAccepted(w, CutPlace(frames, n), CutCount(frames, n), cs)
    ensures !err.Done? ==> err == if w.end.Fails? then Lost else Broken
    ensures w.end.Cuts? && CutPlace(frames, n).InData? ==> err.Done? && CutCount(frames, n) < |Payload(frames)|
  {
    ghost var place, at := CutPlace(frames, n), CutCount(frames, n);
    DecodeCut(hv, w, frames, last, n, 0, Full(cs));
    CutCountBound(frames, n);
    ghost var was := Stream(Payload(frames)[..at], CutEnding(w, place, at, Full(cs)));
    ghost var stored;
    pieces, stored, err, got := UploadAll(hv, true, Framed(frames, last + CRLF)[..n], w, cs, net, was);
    CutVerdict(w, place, at, cs);
  }

  /** A body without framing is stored as far as it came, and is refused only for an error other than an early end. */
  method UploadPlain(input: bytes, w: Wire, cs: nat, net: Net) returns (pieces: seq<Piece>, err: UploadError)
    requires cs > 0 && Willing(net)
    ensures pieces == Layout(Split(input, cs), 0, 0)
    ensures err.Done? <==> !w.end.Fails?
  {
    ghost var stored, got;
    pieces, stored, err, got := UploadAll(HeaderValue, false, input, w, cs, net, Stream(input, PlainEnd(w)));
  }

  /** A chunk followed by something other than a line end is accepted iff the payload so far fills whole chunks. */
  method UploadWrongLineEnd(hv: SizeParser, before: seq<Frame>, f: Frame, term: bytes, after: seq<Frame>,
                            last: bytes, w: Wire, cs: nat, net: Net)
    returns (pieces: seq<Piece>, err: UploadError)
    requires ValidFrames(hv, before) && ValidFrame(hv, f) && ValidFrames(hv, after)
    requires ValidHeader(hv, last, 0) && |term| == 2 && term != CRLF && cs > 0 && Willing(net)
    ensures err.Done? <==> (|Payload(before)| + |f.data|) % cs == 0
    ensures err.Done? ==> pieces == Layout(Split(Payload(before) + (f.data + Payload(after)), cs), 0, 0)
    ensures !err.Done? ==> err.Broken? && pieces == Layout(Split(Payload(before) + f.data, cs), 0, 0)
  {
    WrongLineEnd(hv, w, before, f, term, after, last, Full(cs));
    ghost var unseen := (|Payload(before)| + |f.data|) % cs == 0;
    ghost var was := Prepend(Payload(before), AfterBadChunk(f, after, unseen));
    ghost var stored, got;
    pieces, stored, err, got := UploadAll(hv, true, Misframed(before, f, term, after, last), w, cs, net, was);
  }

  /** Where a header should be there is a line that announces no size, or no line: the payload before it, malformed. */
  method UploadBadHeader(hv: SizeParser, before: seq<Frame>, tail: bytes, w: Wire, cs: nat, net: Net)
    returns (pieces: seq<Piece>, err: UploadError)
    requires ValidFrames(hv, before) && NoHeader(hv, tail) && cs > 0 && Willing(net)
    ensures err.Broken? && pieces == Layout(Split(Payload(before), cs), 0, 0)
  {
    BadHeader(hv, w, before, tail, Full(cs));
    ghost var stored, got;
    pieces, stored, err, got := UploadAll(hv, true, Framed(before, tail), w, cs, net, Stream(Payload(before), Garbled));
  }

  /** With the gateway's own size parser: a first line that is no hexadecimal number with or without an extension. */
  method UploadBadSize(sent: seq<Sent>, tail: bytes, n: nat, w: Wire, cs: nat, net: Net)
    returns (pieces: seq<Piece>, err: UploadError)
    requires (forall i :: 0 <= i < |sent| ==> Sendable(sent[i])) && cs > 0 && Willing(net)
    requires FirstLine(tail, n) && AnnouncesNothing(tail[..n + 1])
    ensures err.Broken? && pieces == Layout(Split(Payload(AsFrames(sent)), cs), 0, 0)
  {
    SentIsValid(sent);
    forall size: nat ensures HeaderValue(tail[..n + 1]) != Some(size) { HeaderMeans(tail[..n + 1], size); }
    assert FirstLine(tail, n) && HeaderValue(tail[..n + 1]).None?;
    pieces, err := UploadBadHeader(HeaderValue, AsFrames(sent), tail, w, cs, net);
  }

  // ---------------------------------------------------------------- the declared length

  /** The check of the decoded length against the client's declaration; no declaration passes. */
  function DeclaredSizeOk(declared: bytes, got: nat): (ok: bool)
    ensures ok <==> declared == [] || ParseInt(declared, 10) == Some(got)
  {
    declared == [] ||
    var want := ParseInt(declared, 10);
    want.Some? && want.value >= 0 && want.value == got
  }

  /**
   A cut body whose payload length was declared is accepted only if no payload is missing; so the
   declaration is what protects an object from a connection that breaks.
   */
  method ReceiveCut(hv: SizeParser, frames: seq<Frame>, last: bytes, n: nat, w: Wire, cs: nat, net: Net,
                    declared: bytes)
    returns (accepted: bool, pieces: seq<Piece>)
    requires ValidFrames(hv, frames) && ValidHeader(hv, last, 0) && cs > 0 && Willing(net)
    requires n < |Framed(frames, last + CRLF)| && |Payload(frames)| < INT64_LIMIT
    requires declared == [] || declared == Render(|Payload(frames)|, 10)
    ensures accepted <==>
              && CutAccepted(w, CutPlace(frames, n), CutCount(frames, n), cs)
              && (declared == [] || CutCount(frames, n) == |Payload(frames)|)
    ensures accepted && declared != [] ==> pieces == Layout(Split(Payload(frames), cs), 0, 0)
  {
    var err, got;
    pieces, err, got := UploadCut(hv, frames, last, n, w, cs, net);
    ParseRendered(|Payload(frames)|, 10);
    accepted := err.Done? && DeclaredSizeOk(declared, got);
    assert got == |Payload(frames)| ==> Payload(frames)[..got] == Payload(frames);
  }
}
