/**
 The aws-chunked framing: what a framed byte string means, and how the meaning of a framed,
 a truncated and a garbled body is determined by its bytes alone.
 */
module Framing {
  import opened Bytes
  import opened Numerals
  import opened Splitting

  /** Longest chunk header line, newline included: the size of the buffered reader. */
  const HEADER_LIMIT: nat := 4096

  /** How the bytes under the framing run out: a plain end, an end before the declared length, or another error. */
  datatype WireEnd = Ends | Cuts | Fails

  /** `joint`: the read that takes the last bytes also reports the end, instead of the next one. */
  datatype Wire = Wire(end: WireEnd, joint: bool)

  /**
   How a body ends: with the zero-size chunk, by running out of bytes where that is noticed, by
   malformed framing, by an early end passed on as it is, or by another error of the wire.
   */
  datatype Ending = Clean | Truncated | Garbled | CutOff | Dropped

  datatype Stream = Stream(payload: bytes, end: Ending)

  function Prepend(p: bytes, s: Stream): Stream {
    Stream(p + s.payload, s.end)
  }

  datatype Header = Size(size: nat, len: nat) | Cut | Invalid(skip: nat)

  function DropLineEnd(line: bytes): bytes {
    if line != [] && (line[|line| - 1] == LF || line[|line| - 1] == CR) then DropLineEnd(line[..|line| - 1]) else line
  }

  function CutExtension(line: bytes): bytes {
    match IndexOf(line, SEMICOLON)
    case Some(i) => line[..i]
    case None => line
  }

  /** The size a header line announces; extensions after a semicolon are ignored. */
  function HeaderValue(line: bytes): Option<nat> {
    var v := ParseInt(TrimSpace(CutExtension(DropLineEnd(line))), 16);
    if v.None? || v.value < 0 then None else Some(v.value)
  }

  /** How the size in a header line is read; the framing itself does not depend on it. */
  type SizeParser = bytes -> Option<nat>

  function ReadHeader(hv: SizeParser, inp: bytes): (h: Header)
    ensures h.Size? ==> 0 < h.len <= |inp|
    ensures h.Invalid? ==> 0 < h.skip <= |inp|
  {
    var nl := IndexOf(inp, LF);
    if nl.Some? && nl.value < HEADER_LIMIT then
      var v := hv(inp[..nl.value + 1]);
      if v.None? then Invalid(nl.value + 1) else Size(v.value, nl.value + 1)
    else if |inp| >= HEADER_LIMIT then Invalid(HEADER_LIMIT)
    else Cut
  }

  /** After how many payload bytes the caller does not see an error that arrives with them. */
  type Blind = nat -> bool

  /** The end of the wire where a header or chunk data should come: only a plain end is turned into an error. */
  function EndSeen(w: Wire): Ending {
    match w.end
    case Ends => Truncated
    case Cuts => CutOff
    case Fails => Dropped
  }

  /** The end of the wire after `got` bytes of a chunk's line end; here an early end is turned into an error too. */
  function TerminatorSeen(w: Wire, got: nat, at: nat, blind: Blind): Ending {
    if w.end.Cuts? && !(got == 0 && w.joint) && !blind(at) then Truncated else EndSeen(w)
  }

  /**
   The payload of the unread input `inp` when `rem` bytes of the current chunk are outstanding and
   `at` payload bytes were delivered before.  A wrong chunk terminator garbles the body, except
   where its error is unseen: there decoding goes on behind it.
   */
  function Decode(hv: SizeParser, w: Wire, inp: bytes, rem: nat, at: nat, blind: Blind): Stream {
    if rem > 0 then DecodeData(hv, w, inp, rem, at, blind) else DecodeNext(hv, w, inp, at, blind)
  }

  /** In a chunk with `rem` bytes to come. */
  function DecodeData(hv: SizeParser, w: Wire, inp: bytes, rem: nat, at: nat, blind: Blind): Stream
    requires rem > 0
    decreases |inp|
  {
    if |inp| < rem then Stream(inp, EndSeen(w))
    else if |inp| < rem + 2 then Stream(inp[..rem], TerminatorSeen(w, |inp| - rem, at + rem, blind))
    else if inp[rem..rem + 2] == [CR, LF] || blind(at + rem) then
      Prepend(inp[..rem], DecodeNext(hv, w, inp[rem + 2..], at + rem, blind))
    else Stream(inp[..rem], Garbled)
  }

  /** At a header line. */
  function DecodeNext(hv: SizeParser, w: Wire, inp: bytes, at: nat, blind: Blind): Stream
    decreases |inp|
  {
    match ReadHeader(hv, inp)
    case Cut => Stream([], EndSeen(w))
    case Invalid(_) => Stream([], Garbled)
    case Size(size, len) => if size == 0 then Stream([], Clean) else DecodeData(hv, w, inp[len..], size, at, blind)
  }

  lemma TakeSplit(inp: bytes, m: nat, n: nat)
    requires m < n && m <= |inp|
    ensures |inp| < n ==> inp == inp[..m] + inp[m..]
    ensures |inp| >= n ==> inp[..n] == inp[..m] + inp[m..][..n - m] && inp[n..] == inp[m..][n - m..]
    ensures |inp| >= n && n - m >= 2 ==> inp[n - 2..n] == inp[m..][n - m - 2..n - m]
  {
  }

  lemma {:induction false} SomeOfShort(hv: SizeParser, w: Wire, inp: bytes, rem: nat, at: nat, blind: Blind, m: nat)
    requires 0 < m < rem && m <= |inp| < rem + 2
    ensures Decode(hv, w, inp, rem, at, blind) == Prepend(inp[..m], Decode(hv, w, inp[m..], rem - m, at + m, blind))
  {
    TakeSplit(inp, m, rem);
  }

  lemma TakeWhole(inp: bytes, m: nat, rem: nat)
    requires 0 < m < rem && |inp| >= rem + 2
    ensures var rest := inp[m..];
            && inp[..rem] == inp[..m] + rest[..rem - m]
            && inp[rem..rem + 2] == rest[rem - m..rem - m + 2]
            && inp[rem + 2..] == rest[rem - m + 2..]
  {
    TakeSplit(inp, m, rem);
    TakeSplit(inp, m, rem + 2);
  }

  /** What a whole chunk and the two bytes behind it lead to. */
  function AfterChunk(hv: SizeParser, w: Wire, data: bytes, term: bytes, rest: bytes, at: nat, blind: Blind): Stream {
    if term == [CR, LF] || blind(at) then Prepend(data, Decode(hv, w, rest, 0, at, blind)) else Stream(data, Garbled)
  }

  lemma {:induction false} WholeChunk(hv: SizeParser, w: Wire, inp: bytes, rem: nat, at: nat, blind: Blind)
    requires 0 < rem && |inp| >= rem + 2
    ensures Decode(hv, w, inp, rem, at, blind)
         == AfterChunk(hv, w, inp[..rem], inp[rem..rem + 2], inp[rem + 2..], at + rem, blind)
  {
  }

  lemma {:induction false} LongerChunk(hv: SizeParser, w: Wire, a: bytes, b: bytes, term: bytes, rest: bytes,
                                       at: nat, blind: Blind)
    ensures AfterChunk(hv, w, a + b, term, rest, at, blind) == Prepend(a, AfterChunk(hv, w, b, term, rest, at, blind))
  {
    PrependTwice(a, b, Decode(hv, w, rest, 0, at, blind));
  }

  lemma {:induction false} SomeOfLong(hv: SizeParser, w: Wire, inp: bytes, rem: nat, at: nat, blind: Blind, m: nat)
    requires 0 < m < rem && |inp| >= rem + 2
    ensures Decode(hv, w, inp, rem, at, blind) == Prepend(inp[..m], Decode(hv, w, inp[m..], rem - m, at + m, blind))
  {
    var rest := inp[m..];
    WholeChunk(hv, w, inp, rem, at, blind);
    WholeChunk(hv, w, rest, rem - m, at + m, blind);
    TakeWhole(inp, m, rem);
    LongerChunk(hv, w, inp[..m], rest[..rem - m], inp[rem..rem + 2], inp[rem + 2..], at + rem, blind);
  }

  /** Taking m bytes of the current chunk takes them off the front of the payload. */
  lemma {:induction false} DecodeSome(hv: SizeParser, w: Wire, inp: bytes, rem: nat, at: nat, blind: Blind, m: nat)
    requires 0 < m < rem && m <= |inp|
    ensures Decode(hv, w, inp, rem, at, blind) == Prepend(inp[..m], Decode(hv, w, inp[m..], rem - m, at + m, blind))
  {
    if |inp| < rem + 2 {
      SomeOfShort(hv, w, inp, rem, at, blind, m);
    } else {
      SomeOfLong(hv, w, inp, rem, at, blind, m);
    }
  }

  lemma DecodeEmpty(hv: SizeParser, w: Wire, rem: nat, at: nat, blind: Blind)
    ensures Decode(hv, w, [], rem, at, blind) == Stream([], EndSeen(w))
  {
  }

  // ---------------------------------------------------------------- framed bodies

  /** One chunk as sent: its header line without the line end, and its bytes. */
  datatype Frame = Frame(header: bytes, data: bytes)

  const CRLF: bytes := [CR, LF]

  ghost predicate ValidHeader(hv: SizeParser, header: bytes, size: nat) {
    && LF !in header
    && |header| + 2 <= 4096
    && hv(header + CRLF) == Some(size)
  }

  ghost predicate ValidFrame(hv: SizeParser, f: Frame) {
    f.data != [] && ValidHeader(hv, f.header, |f.data|)
  }

  ghost predicate ValidFrames(hv: SizeParser, frames: seq<Frame>) {
    forall i :: 0 <= i < |frames| ==> ValidFrame(hv, frames[i])
  }

  function FrameBytes(f: Frame): bytes {
    f.header + CRLF + f.data + CRLF
  }

  /** Frames, then whatever follows them. */
  function Framed(frames: seq<Frame>, tail: bytes): bytes {
    if frames == [] then tail else FrameBytes(frames[0]) + Framed(frames[1..], tail)
  }

  function Payload(frames: seq<Frame>): bytes {
    if frames == [] then [] else frames[0].data + Payload(frames[1..])
  }

  lemma {:induction false} HeaderReads(hv: SizeParser, header: bytes, size: nat, rest: bytes)
    requires ValidHeader(hv, header, size)
    ensures ReadHeader(hv, header + CRLF + rest) == Size(size, |header| + 2)
  {
    var inp := header + CRLF + rest;
    assert inp[|header| + 1] == LF;
    assert forall i :: 0 <= i < |header| ==> inp[i] == header[i];
    assert IndexOf(inp, LF) == Some(|header| + 1);
    assert inp[..|header| + 2] == header + CRLF;
  }

  lemma {:induction false} HeaderThenData(hv: SizeParser, w: Wire, header: bytes, size: nat, rest: bytes, at: nat,
                                          blind: Blind)
    requires ValidHeader(hv, header, size) && size > 0
    ensures Decode(hv, w, header + CRLF + rest, 0, at, blind) == Decode(hv, w, rest, size, at, blind)
  {
    HeaderReads(hv, header, size, rest);
    assert (header + CRLF + rest)[|header| + 2..] == rest;
  }

  /** One chunk followed by two bytes that may or may not be a line end. */
  lemma {:induction false} ChunkDecodes(hv: SizeParser, w: Wire, f: Frame, term: bytes, rest: bytes, at: nat,
                                        blind: Blind)
    requires ValidFrame(hv, f) && |term| == 2
    ensures Decode(hv, w, f.header + CRLF + f.data + term + rest, 0, at, blind)
         == AfterChunk(hv, w, f.data, term, rest, at + |f.data|, blind)
  {
    var body := f.data + term + rest;
    assert f.header + CRLF + f.data + term + rest == f.header + CRLF + body;
    HeaderThenData(hv, w, f.header, |f.data|, body, at, blind);
    WholeChunk(hv, w, body, |f.data|, at, blind);
    assert body[..|f.data|] == f.data && body[|f.data|..|f.data| + 2] == term && body[|f.data| + 2..] == rest;
  }

  lemma {:induction false} FrameDecodes(hv: SizeParser, w: Wire, f: Frame, rest: bytes, at: nat, blind: Blind)
    requires ValidFrame(hv, f)
    ensures Decode(hv, w, FrameBytes(f) + rest, 0, at, blind)
         == Prepend(f.data, Decode(hv, w, rest, 0, at + |f.data|, blind))
  {
    assert FrameBytes(f) + rest == f.header + CRLF + f.data + CRLF + rest;
    ChunkDecodes(hv, w, f, CRLF, rest, at, blind);
  }

  /** A decoder from a chunk boundary: unread input and payload delivered so far to what follows. */
  type Decoder = (bytes, nat) -> Stream

  ghost predicate TakesFrame(dec: Decoder, f: Frame) {
    forall rest: bytes, at: nat :: dec(FrameBytes(f) + rest, at) == Prepend(f.data, dec(rest, at + |f.data|))
  }

  ghost predicate TakesFrames(dec: Decoder, frames: seq<Frame>) {
    forall i :: 0 <= i < |frames| ==> TakesFrame(dec, frames[i])
  }

  lemma RestTaken(dec: Decoder, frames: seq<Frame>)
    requires TakesFrames(dec, frames) && frames != []
    ensures TakesFrames(dec, frames[1..])
  {
    assert forall i :: 0 <= i < |frames[1..]| ==> frames[1..][i] == frames[i + 1];
  }

  /** The parts one after the other, then the tail. */
  function Chain(parts: seq<bytes>, tail: bytes): bytes {
    if parts == [] then tail else parts[0] + Chain(parts[1..], tail)
  }

  ghost predicate TakesParts(dec: Decoder, parts: seq<bytes>, datas: seq<bytes>) {
    && |parts| == |datas|
    && forall i, rest: bytes, at: nat :: 0 <= i < |parts| ==>
         dec(parts[i] + rest, at) == Prepend(datas[i], dec(rest, at + |datas[i]|))
  }

  lemma RestParts(dec: Decoder, parts: seq<bytes>, datas: seq<bytes>)
    requires TakesParts(dec, parts, datas) && parts != []
    ensures TakesParts(dec, parts[1..], datas[1..])
  {
    assert forall i :: 0 <= i < |parts[1..]| ==> parts[1..][i] == parts[i + 1] && datas[1..][i] == datas[i + 1];
  }

  lemma {:induction false} ChainTaken(dec: Decoder, parts: seq<bytes>, datas: seq<bytes>, tail: bytes, at: nat)
    requires TakesParts(dec, parts, datas)
    ensures dec(Chain(parts, tail), at) == Prepend(Concat(datas), dec(tail, at + |Concat(datas)|))
    decreases |parts|
  {
    if parts != [] {
      var d, rest := datas[0], Chain(parts[1..], tail);
      assert dec(parts[0] + rest, at) == Prepend(d, dec(rest, at + |d|));
      RestParts(dec, parts, datas);
      ChainTaken(dec, parts[1..], datas[1..], tail, at + |d|);
      PrependOnto(d, Concat(datas[1..]), dec(parts[0] + rest, at), dec(rest, at + |d|),
                  dec(tail, at + |d| + |Concat(datas[1..])|));
    }
  }

  function Encoded(frames: seq<Frame>): seq<bytes> {
    seq(|frames|, i requires 0 <= i < |frames| => FrameBytes(frames[i]))
  }

  function Datas(frames: seq<Frame>): seq<bytes> {
    seq(|frames|, i requires 0 <= i < |frames| => frames[i].data)
  }

  lemma {:induction false} FramedIsChain(frames: seq<Frame>, tail: bytes)
    ensures Framed(frames, tail) == Chain(Encoded(frames), tail) && Payload(frames) == Concat(Datas(frames))
    decreases |frames|
  {
    if frames != [] {
      FramedIsChain(frames[1..], tail);
      assert Encoded(frames)[1..] == Encoded(frames[1..]) && Datas(frames)[1..] == Datas(frames[1..]);
    }
  }

  lemma {:induction false} FramesTaken(dec: Decoder, frames: seq<Frame>, tail: bytes, at: nat)
    requires TakesFrames(dec, frames)
    ensures dec(Framed(frames, tail), at) == Prepend(Payload(frames), dec(tail, at + |Payload(frames)|))
  {
    FramedIsChain(frames, tail);
    EncodedTaken(dec, frames);
    ChainTaken(dec, Encoded(frames), Datas(frames), tail, at);
  }

  lemma EncodedTaken(dec: Decoder, frames: seq<Frame>)
    requires TakesFrames(dec, frames)
    ensures TakesParts(dec, Encoded(frames), Datas(frames))
  {
    assert forall i :: 0 <= i < |frames| ==> TakesFrame(dec, frames[i]);
  }

  lemma PrependOnto(a: bytes, b: bytes, s: Stream, t: Stream, u: Stream)
    requires s == Prepend(a, t) && t == Prepend(b, u)
    ensures s == Prepend(a + b, u)
  {
  }

  /** Frames contribute their payload, whatever follows them. */
  lemma {:induction false} FramesDecode(hv: SizeParser, w: Wire, frames: seq<Frame>, tail: bytes, at: nat, blind: Blind)
    requires ValidFrames(hv, frames)
    ensures Decode(hv, w, Framed(frames, tail), 0, at, blind)
         == Prepend(Payload(frames), Decode(hv, w, tail, 0, at + |Payload(frames)|, blind))
  {
    FramesFrom(hv, w, blind, frames, tail, at);
  }

  lemma {:induction false} FramesFrom(hv: SizeParser, w: Wire, blind: Blind, frames: seq<Frame>, tail: bytes, at: nat)
    requires ValidFrames(hv, frames)
    ensures var dec := From(hv, w, blind);
            dec(Framed(frames, tail), at) == Prepend(Payload(frames), dec(tail, at + |Payload(frames)|))
  {
    DecoderTakes(hv, w, blind, frames);
    FramesTaken(From(hv, w, blind), frames, tail, at);
  }

  function From(hv: SizeParser, w: Wire, blind: Blind): Decoder {
    (inp: bytes, at: nat) => Decode(hv, w, inp, 0, at, blind)
  }

  lemma {:induction false} DecoderTakes(hv: SizeParser, w: Wire, blind: Blind, frames: seq<Frame>)
    requires ValidFrames(hv, frames)
    ensures TakesFrames(From(hv, w, blind), frames)
  {
    forall i | 0 <= i < |frames| ensures TakesFrame(From(hv, w, blind), frames[i]) {
      DecoderTakesOne(hv, w, blind, frames[i]);
    }
  }

  lemma {:induction false} DecoderTakesOne(hv: SizeParser, w: Wire, blind: Blind, f: Frame)
    requires ValidFrame(hv, f)
    ensures TakesFrame(From(hv, w, blind), f)
  {
    var dec := From(hv, w, blind);
    forall rest: bytes, at: nat
      ensures dec(FrameBytes(f) + rest, at) == Prepend(f.data, dec(rest, at + |f.data|))
    {
      FrameTaken(hv, w, blind, f, rest, at);
    }
  }

  lemma {:induction false} FrameTaken(hv: SizeParser, w: Wire, blind: Blind, f: Frame, rest: bytes, at: nat)
    requires ValidFrame(hv, f)
    ensures From(hv, w, blind)(FrameBytes(f) + rest, at) == Prepend(f.data, From(hv, w, blind)(rest, at + |f.data|))
  {
    FrameDecodes(hv, w, f, rest, at, blind);
  }

  lemma PrependTwice(a: bytes, b: bytes, s: Stream)
    ensures Prepend(a, Prepend(b, s)) == Prepend(a + b, s)
  {
  }

  /** Decoding inverts framing, for every chunking, every extension, every trailer and every end of the wire. */
  lemma {:induction false} DecodeFramed(hv: SizeParser, w: Wire, frames: seq<Frame>, last: bytes, trailer: bytes,
                                        at: nat, blind: Blind)
    requires ValidFrames(hv, frames) && ValidHeader(hv, last, 0)
    ensures Decode(hv, w, Framed(frames, last + CRLF + trailer), 0, at, blind) == Stream(Payload(frames), Clean)
  {
    FramesDecode(hv, w, frames, last + CRLF + trailer, at, blind);
    HeaderReads(hv, last, 0, trailer);
  }

  /** A body of frames whose chunk `f` is followed by `term` instead of a line end. */
  function Misframed(before: seq<Frame>, f: Frame, term: bytes, after: seq<Frame>, last: bytes): bytes {
    Framed(before, BadChunk(f, term, Framed(after, last + CRLF)))
  }

  function BadChunk(f: Frame, term: bytes, rest: bytes): bytes {
    f.header + CRLF + f.data + term + rest
  }

  /** Exactly when the bytes behind a chunk may be something other than a line end. */
  lemma {:induction false} WrongLineEnd(hv: SizeParser, w: Wire, before: seq<Frame>, f: Frame, term: bytes,
                                        after: seq<Frame>, last: bytes, blind: Blind)
    requires ValidFrames(hv, before) && ValidFrame(hv, f) && ValidFrames(hv, after) && ValidHeader(hv, last, 0)
    requires |term| == 2 && term != CRLF
    ensures Decode(hv, w, Misframed(before, f, term, after, last), 0, 0, blind)
         == Prepend(Payload(before), AfterBadChunk(f, after, blind(|Payload(before)| + |f.data|)))
  {
    ChunkThenFrames(hv, w, f, term, after, last, |Payload(before)|, blind);
    BadChunkLater(hv, w, before, f, term, after, last, blind);
  }

  lemma {:induction false} BadChunkLater(hv: SizeParser, w: Wire, before: seq<Frame>, f: Frame, term: bytes,
                                         after: seq<Frame>, last: bytes, blind: Blind)
    requires ValidFrames(hv, before)
    requires Decode(hv, w, BadChunk(f, term, Framed(after, last + CRLF)), 0, |Payload(before)|, blind)
          == AfterBadChunk(f, after, blind(|Payload(before)| + |f.data|))
    ensures Decode(hv, w, Misframed(before, f, term, after, last), 0, 0, blind)
         == Prepend(Payload(before), AfterBadChunk(f, after, blind(|Payload(before)| + |f.data|)))
  {
    FramesThen(hv, w, before, BadChunk(f, term, Framed(after, last + CRLF)),
               AfterBadChunk(f, after, blind(|Payload(before)| + |f.data|)), blind);
  }

  /** A header line that announces no size, or none within 4096 bytes, where a header should be. */
  ghost predicate NoHeader(hv: SizeParser, tail: bytes) {
    || (exists n: nat :: FirstLine(tail, n) && hv(tail[..n + 1]).None?)
    || (|tail| >= 4096 && forall i :: 0 <= i < 4096 ==> tail[i] != 10)
  }

  /** The first line feed is at n, among the first 4096 bytes. */
  ghost predicate FirstLine(tail: bytes, n: nat) {
    n < |tail| && n < 4096 && tail[n] == 10 && forall i :: 0 <= i < n ==> tail[i] != 10
  }

  lemma {:induction false} NoHeaderRead(hv: SizeParser, tail: bytes)
    requires NoHeader(hv, tail)
    ensures ReadHeader(hv, tail).Invalid?
  {
    var nl := IndexOf(tail, LF);
    if n: nat :| FirstLine(tail, n) && hv(tail[..n + 1]).None? {
      assert tail[n] in tail;
      assert nl == Some(n);
    }
  }

  /** A body whose framing goes wrong at a header delivers the payload before it and is malformed. */
  lemma {:induction false} BadHeader(hv: SizeParser, w: Wire, before: seq<Frame>, tail: bytes, blind: Blind)
    requires ValidFrames(hv, before) && NoHeader(hv, tail)
    ensures Decode(hv, w, Framed(before, tail), 0, 0, blind) == Stream(Payload(before), Garbled)
  {
    NoHeaderRead(hv, tail);
    FramesThen(hv, w, before, tail, Stream([], Garbled), blind);
  }

  /** The frames on the wire: header line, data, line end, one after the other. */
  lemma {:induction false} FramedMeans(f: Frame, rest: seq<Frame>, tail: bytes)
    ensures Framed([], tail) == tail && Payload([]) == []
    ensures Framed([f] + rest, tail) == f.header + [13, 10] + f.data + [13, 10] + Framed(rest, tail)
    ensures Payload([f] + rest) == f.data + Payload(rest)
  {
    assert ([f] + rest)[1..] == rest;
  }

  /** What a chunk with a wrong line end leads to: its error is dropped, or it is the end. */
  function AfterBadChunk(f: Frame, after: seq<Frame>, unseen: bool): Stream {
    if unseen then Stream(f.data + Payload(after), Clean) else Stream(f.data, Garbled)
  }

  lemma {:induction false} FramesThen(hv: SizeParser, w: Wire, before: seq<Frame>, tail: bytes, s: Stream, blind: Blind)
    requires ValidFrames(hv, before) && Decode(hv, w, tail, 0, |Payload(before)|, blind) == s
    ensures Decode(hv, w, Framed(before, tail), 0, 0, blind) == Prepend(Payload(before), s)
  {
    FramesDecode(hv, w, before, tail, 0, blind);
  }

  lemma {:induction false} ChunkThenFrames(hv: SizeParser, w: Wire, f: Frame, term: bytes, after: seq<Frame>,
                                           last: bytes, at: nat, blind: Blind)
    requires ValidFrame(hv, f) && ValidFrames(hv, after) && ValidHeader(hv, last, 0) && |term| == 2 && term != CRLF
    ensures Decode(hv, w, BadChunk(f, term, Framed(after, last + CRLF)), 0, at, blind)
         == AfterBadChunk(f, after, blind(at + |f.data|))
  {
    ChunkDecodes(hv, w, f, term, Framed(after, last + CRLF), at, blind);
    assert last + CRLF == last + CRLF + [];
    DecodeFramed(hv, w, after, last, [], at + |f.data|, blind);
  }

  // ---------------------------------------------------------------- bodies cut short

  /** Where a cut falls: in a header line, in chunk data, or after `got` bytes of a chunk's line end. */
  datatype Place = InHeader | InData | InTerminator(got: nat)

  function CutPlace(frames: seq<Frame>, n: nat): Place {
    if frames == [] then InHeader
    else
      var h, d := |frames[0].header| + 2, |frames[0].data|;
      if n < h then InHeader
      else if n < h + d then InData
      else if n < h + d + 2 then InTerminator(n - h - d)
      else CutPlace(frames[1..], n - h - d - 2)
  }

  /** How many payload bytes come before the cut. */
  function CutCount(frames: seq<Frame>, n: nat): nat {
    if frames == [] then 0
    else
      var h, d := |frames[0].header| + 2, |frames[0].data|;
      if n < h then 0
      else if n < h + d + 2 then Min(n - h, d)
      else d + CutCount(frames[1..], n - h - d - 2)
  }

  /** The ending of a cut body, from the wire, the place of the cut and the payload delivered before it. */
  function CutEnding(w: Wire, place: Place, at: nat, blind: Blind): Ending {
    match place
    case InTerminator(got) => TerminatorSeen(w, got, at, blind)
    case _ => EndSeen(w)
  }

  /** A cut within frame f: all data of the frames before it, and as much of its own as lies before the cut. */
  lemma {:induction false} CutMeans(a: seq<Frame>, f: Frame, b: seq<Frame>, m: nat)
    requires m < |f.header| + |f.data| + 4
    ensures var n := |Framed(a, [])| + m;
            && CutCount(a + [f] + b, n) == |Payload(a)| + Max(0, Min(m - |f.header| - 2, |f.data|))
            && CutPlace(a + [f] + b, n) ==
               if m < |f.header| + 2 then InHeader
               else if m < |f.header| + 2 + |f.data| then InData
               else InTerminator(m - |f.header| - 2 - |f.data|)
    decreases |a|
  {
    if a != [] {
      CutMeans(a[1..], f, b, m);
      assert (a + [f] + b)[1..] == a[1..] + [f] + b;
    }
  }

  lemma {:induction false} CutCountBound(frames: seq<Frame>, n: nat)
    ensures CutCount(frames, n) <= |Payload(frames)|
    ensures CutPlace(frames, n).InData? ==> CutCount(frames, n) < |Payload(frames)|
    decreases |frames|
  {
    if frames != [] && n >= |FrameBytes(frames[0])| {
      CutCountBound(frames[1..], n - |FrameBytes(frames[0])|);
    }
  }

  lemma {:induction false} CutHeader(hv: SizeParser, header: bytes, n: nat)
    requires LF !in header && |header| + 2 <= HEADER_LIMIT && n <= |header| + 1
    ensures ReadHeader(hv, (header + CRLF)[..n]) == Cut
  {
    var inp := (header + CRLF)[..n];
    assert forall i :: 0 <= i < n ==> inp[i] != LF;
  }

  /** A cut within one frame, said outright. */
  lemma CutOfOne(f: Frame, w: Wire, n: nat, at: nat, blind: Blind)
    requires n < |FrameBytes(f)|
    ensures var h, d := |f.header| + 2, |f.data|;
            CutStream([f], w, n, at, blind) ==
            if n < h then Stream([], EndSeen(w))
            else Stream(f.data[..Min(n - h, d)],
                        if n - h < d then EndSeen(w) else TerminatorSeen(w, n - h - d, at + d, blind))
  {
    assert Payload([f]) == f.data;
  }

  lemma {:induction false} CutFrame(hv: SizeParser, w: Wire, f: Frame, n: nat, at: nat, blind: Blind)
    requires ValidFrame(hv, f) && n < |FrameBytes(f)|
    ensures Decode(hv, w, FrameBytes(f)[..n], 0, at, blind) == CutStream([f], w, n, at, blind)
  {
    CutOfOne(f, w, n, at, blind);
    if n < |f.header| + 2 {
      assert FrameBytes(f)[..n] == (f.header + CRLF)[..n];
      CutHeader(hv, f.header, n);
    } else {
      CutBehindHeader(hv, w, f, n, at, blind);
    }
  }

  lemma {:induction false} CutBehindHeader(hv: SizeParser, w: Wire, f: Frame, n: nat, at: nat, blind: Blind)
    requires ValidFrame(hv, f) && |f.header| + 2 <= n < |FrameBytes(f)|
    ensures var m, d := n - |f.header| - 2, |f.data|;
            Decode(hv, w, FrameBytes(f)[..n], 0, at, blind) ==
            Stream(f.data[..Min(m, d)], if m < d then EndSeen(w) else TerminatorSeen(w, m - d, at + d, blind))
  {
    var m := n - |f.header| - 2;
    var rest := (f.data + CRLF)[..m];
    assert FrameBytes(f)[..n] == f.header + CRLF + rest;
    HeaderThenData(hv, w, f.header, |f.data|, rest, at, blind);
    CutData(hv, w, f.data, rest, m, at, blind);
  }

  lemma {:induction false} CutData(hv: SizeParser, w: Wire, data: bytes, rest: bytes, m: nat, at: nat, blind: Blind)
    requires data != [] && m < |data| + 2 && rest == (data + CRLF)[..m]
    ensures Decode(hv, w, rest, |data|, at, blind)
         == Stream(data[..Min(m, |data|)],
                   if m < |data| then EndSeen(w) else TerminatorSeen(w, m - |data|, at + |data|, blind))
  {
    assert rest[..Min(m, |data|)] == data[..Min(m, |data|)];
  }

  ghost predicate CutsFrames(dec: Decoder, w: Wire, blind: Blind, frames: seq<Frame>) {
    forall i, n: nat, at: nat :: 0 <= i < |frames| && n < |FrameBytes(frames[i])| ==>
      dec(FrameBytes(frames[i])[..n], at) == CutStream([frames[i]], w, n, at, blind)
  }

  ghost predicate CutsLast(dec: Decoder, w: Wire, tail: bytes) {
    forall m: nat, at: nat :: m < |tail| ==> dec(tail[..m], at) == Stream([], EndSeen(w))
  }

  /** What a cut leaves: the payload before it, and the ending. */
  function CutStream(frames: seq<Frame>, w: Wire, n: nat, at: nat, blind: Blind): Stream {
    var c := Min(CutCount(frames, n), |Payload(frames)|);
    Stream(Payload(frames)[..c], CutEnding(w, CutPlace(frames, n), at + c, blind))
  }

  lemma {:induction false} CutTaken(dec: Decoder, w: Wire, blind: Blind, frames: seq<Frame>, tail: bytes, n: nat,
                                    at: nat)
    requires TakesFrames(dec, frames) && CutsFrames(dec, w, blind, frames) && n < |Framed(frames, tail)|
    requires CutsLast(dec, w, tail)
    ensures dec(Framed(frames, tail)[..n], at) == CutStream(frames, w, n, at, blind)
    decreases |frames|
  {
    if frames != [] {
      var f := frames[0];
      var whole, rest := FrameBytes(f), Framed(frames[1..], tail);
      if n < |whole| {
        assert (whole + rest)[..n] == whole[..n];
        CutFirst(frames, w, n, at, blind);
      } else {
        var m := n - |whole|;
        assert (whole + rest)[..n] == whole + rest[..m];
        assert dec(whole + rest[..m], at) == Prepend(f.data, dec(rest[..m], at + |f.data|));
        RestTaken(dec, frames);
        assert forall i :: 0 <= i < |frames[1..]| ==> frames[1..][i] == frames[i + 1];
        CutTaken(dec, w, blind, frames[1..], tail, m, at + |f.data|);
        CutLater(frames, w, n, at, blind);
      }
    }
  }

  lemma {:induction false} CutFirst(frames: seq<Frame>, w: Wire, n: nat, at: nat, blind: Blind)
    requires frames != [] && n < |FrameBytes(frames[0])|
    ensures CutStream(frames, w, n, at, blind) == CutStream([frames[0]], w, n, at, blind)
  {
    assert Payload([frames[0]]) == frames[0].data;
  }

  lemma {:induction false} CutLater(frames: seq<Frame>, w: Wire, n: nat, at: nat, blind: Blind)
    requires frames != [] && n >= |FrameBytes(frames[0])|
    ensures CutStream(frames, w, n, at, blind)
         == Prepend(frames[0].data,
                    CutStream(frames[1..], w, n - |FrameBytes(frames[0])|, at + |frames[0].data|, blind))
  {
  }

  /**
   A framed body cut anywhere before the newline of its zero-size header decodes to exactly the
   payload before the cut, and the ending is fixed by the wire and the place of the cut; it is never clean.
   */
  lemma {:induction false} DecodeCut(hv: SizeParser, w: Wire, frames: seq<Frame>, last: bytes, n: nat, at: nat,
                                     blind: Blind)
    requires ValidFrames(hv, frames) && ValidHeader(hv, last, 0) && n < |Framed(frames, last + CRLF)|
    ensures CutCount(frames, n) <= |Payload(frames)|
    ensures Decode(hv, w, Framed(frames, last + CRLF)[..n], 0, at, blind)
         == Stream(Payload(frames)[..CutCount(frames, n)],
                   CutEnding(w, CutPlace(frames, n), at + CutCount(frames, n), blind))
  {
    DecoderTakes(hv, w, blind, frames);
    DecoderCuts(hv, w, blind, frames);
    LastCuts(hv, w, blind, last);
    CutTaken(From(hv, w, blind), w, blind, frames, last + CRLF, n, at);
    CutCountBound(frames, n);
  }

  lemma {:induction false} DecoderCuts(hv: SizeParser, w: Wire, blind: Blind, frames: seq<Frame>)
    requires ValidFrames(hv, frames)
    ensures CutsFrames(From(hv, w, blind), w, blind, frames)
  {
    var dec := From(hv, w, blind);
    forall i, m: nat, at: nat | 0 <= i < |frames| && m < |FrameBytes(frames[i])|
      ensures dec(FrameBytes(frames[i])[..m], at) == CutStream([frames[i]], w, m, at, blind)
    {
      CutFrame(hv, w, frames[i], m, at, blind);
    }
  }

  lemma {:induction false} LastCuts(hv: SizeParser, w: Wire, blind: Blind, last: bytes)
    requires ValidHeader(hv, last, 0)
    ensures CutsLast(From(hv, w, blind), w, last + CRLF)
  {
    var dec := From(hv, w, blind);
    forall m: nat, at: nat | m < |last + CRLF| ensures dec((last + CRLF)[..m], at) == Stream([], EndSeen(w)) {
      CutHeader(hv, last, m);
    }
  }

  // ---------------------------------------------------------------- headers clients send

  /** An empty extension, or one that starts with a semicolon and stays on its line. */
  ghost predicate Extension(ext: bytes) {
    LF !in ext && (ext == [] || ext[0] == SEMICOLON)
  }

  lemma {:induction false} DropLineEndPrefix(digits: bytes, ext: bytes)
    requires digits != [] && digits[|digits| - 1] != CR && digits[|digits| - 1] != LF
    ensures exists rest :: DropLineEnd(digits + ext) == digits + rest && rest <= ext
    decreases |ext|
  {
    var line := digits + ext;
    if ext == [] {
      assert line == digits;
      assert DropLineEnd(line) == digits + [];
    } else if ext[|ext| - 1] == LF || ext[|ext| - 1] == CR {
      assert line[..|line| - 1] == digits + ext[..|ext| - 1];
      DropLineEndPrefix(digits, ext[..|ext| - 1]);
    } else {
      assert DropLineEnd(line) == digits + ext;
    }
  }

  lemma HexHeaderCut(digits: bytes, ext: bytes, rest: bytes)
    requires forall i :: 0 <= i < |digits| ==> IsDigit(digits[i])
    requires Extension(ext) && rest <= ext + CRLF
    requires rest != [] ==> rest[|rest| - 1] != CR && rest[|rest| - 1] != LF
    ensures CutExtension(digits + rest) == digits
  {
    var line := digits + rest;
    if rest == [] {
      assert line == digits;
    } else if ext != [] {
      assert line[|digits|] == SEMICOLON;
      assert forall i :: 0 <= i < |digits| ==> line[i] == digits[i];
      assert line[..|digits|] == digits;
    }
  }

  lemma DropLineEndStops(line: bytes)
    ensures var r := DropLineEnd(line); r != [] ==> r[|r| - 1] != LF && r[|r| - 1] != CR
  {
  }

  /** What is left of `<digits>[;extension]` once line end and extension are cut. */
  lemma HeaderDigits(digits: bytes, ext: bytes)
    requires digits != [] && forall i :: 0 <= i < |digits| ==> IsDigit(digits[i])
    requires Extension(ext)
    ensures CutExtension(DropLineEnd(digits + ext + CRLF)) == digits
  {
    assert digits + ext + CRLF == digits + (ext + CRLF);
    assert IsDigit(digits[|digits| - 1]);
    DropLineEndPrefix(digits, ext + CRLF);
    var rest :| DropLineEnd(digits + (ext + CRLF)) == digits + rest && rest <= ext + CRLF;
    DropLineEndStops(digits + (ext + CRLF));
    assert rest != [] ==> (digits + rest)[|digits + rest| - 1] == rest[|rest| - 1];
    HexHeaderCut(digits, ext, rest);
  }

  /** `<hex size>[;extension]` announces that size. */
  lemma HexValue(size: nat, ext: bytes)
    requires size < INT64_LIMIT && Extension(ext)
    ensures HeaderValue(Render(size, 16) + ext + CRLF) == Some(size)
  {
    var digits := Render(size, 16);
    RenderValue(size, 16);
    ParseRendered(size, 16);
    HeaderDigits(digits, ext);
    assert IsDigit(digits[|digits| - 1]) && IsDigit(digits[0]);
    TrimNothing(digits);
  }

  /** So it is a valid header of a chunk of that size, as far as the line fits the buffer. */
  lemma HexHeader(size: nat, ext: bytes)
    requires size < INT64_LIMIT && Extension(ext) && |Render(size, 16)| + |ext| + 2 <= HEADER_LIMIT
    ensures ValidHeader(HeaderValue, Render(size, 16) + ext, size)
  {
    RenderValue(size, 16);
    HexValue(size, ext);
  }

  /** A chunk as clients send it. */
  datatype Sent = Sent(data: bytes, ext: bytes)

  ghost predicate Sendable(s: Sent) {
    && s.data != [] && |s.data| < INT64_LIMIT && Extension(s.ext)
    && |Render(|s.data|, 16)| + |s.ext| + 2 <= HEADER_LIMIT
  }

  function AsFrames(sent: seq<Sent>): seq<Frame> {
    seq(|sent|, i requires 0 <= i < |sent| => Frame(Render(|sent[i].data|, 16) + sent[i].ext, sent[i].data))
  }

  lemma SentIsValid(sent: seq<Sent>)
    requires forall i :: 0 <= i < |sent| ==> Sendable(sent[i])
    ensures ValidFrames(HeaderValue, AsFrames(sent))
  {
    forall i | 0 <= i < |sent| ensures ValidFrame(HeaderValue, AsFrames(sent)[i]) {
      HexHeader(|sent[i].data|, sent[i].ext);
    }
  }
}
