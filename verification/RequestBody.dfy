/** The request body: an aws-chunked or plain stream over a wire, and its reads. */
module RequestBody {
  import opened Bytes
  import opened Numerals
  import opened Framing
  import Alignment

  datatype ReadError = Fine | EndOfFile | UnexpectedEnd | Malformed | Failed

  /** A caller that fills buffers of cs bytes does not see an error that arrives with a full buffer (0: sees all). */
  function Full(cs: nat): Blind {
    (at: nat) => cs > 0 && at % cs == 0
  }

  /** The error in which the wire itself ends. */
  function WireError(w: Wire): ReadError {
    match w.end
    case Ends => EndOfFile
    case Cuts => UnexpectedEnd
    case Fails => Failed
  }

  /** A plain end inside the framing is malformed; other errors of the wire are passed on as they are. */
  function Translated(err: ReadError): ReadError {
    if err.EndOfFile? then Malformed else err
  }

  /** The error a body with that ending is reported with. */
  function ErrorOf(e: Ending): ReadError {
    match e
    case Clean => EndOfFile
    case Truncated => Malformed
    case Garbled => Malformed
    case CutOff => UnexpectedEnd
    case Dropped => Failed
  }

  /** A body without framing ends as the wire does. */
  function PlainEnd(w: Wire): Ending {
    match w.end
    case Ends => Clean
    case Cuts => CutOff
    case Fails => Dropped
  }

  class Body {
    const chunked: bool
    const input: bytes
    const wire: Wire
    const sizeOf: SizeParser
    var pos: nat
    var remaining: nat
    var done: bool
    var count: nat

    ghost predicate Valid()
      reads this
    {
      pos <= |input|
    }

    /** What is still to be delivered, to a caller that fills buffers of cs bytes (0: one that sees every error). */
    ghost function Meaning(cs: nat): Stream
      requires Valid()
      reads this
    {
      if !chunked then Stream(input[pos..], PlainEnd(wire))
      else if done then Stream([], Clean)
      else Decode(sizeOf, wire, input[pos..], remaining, count, Full(cs))
    }

    /** `sizeOf` reads the size in a header line; the gateway's is `HeaderValue`. */
    constructor (chunked: bool, input: bytes, wire: Wire, sizeOf: SizeParser)
      ensures Valid() && this.chunked == chunked && this.input == input && this.wire == wire
      ensures this.sizeOf == sizeOf && count == 0
      ensures forall cs :: Meaning(cs) == if chunked then Decode(sizeOf, wire, input, 0, 0, Full(cs))
                                          else Stream(input, PlainEnd(wire))
    {
      this.chunked, this.input, this.wire, this.sizeOf := chunked, input, wire, sizeOf;
      pos, remaining, done, count := 0, 0, false, 0;
      new;
      assert input[0..] == input;
    }

    /** Reads the size line of the next chunk. */
    method ReadChunkSize(ghost cs: nat) returns (size: nat, err: ReadError)
      requires Valid() && chunked && !done && remaining == 0
      modifies this`pos
      ensures Valid() && old(pos) <= pos
      ensures err.Fine? ==> ReadHeader(sizeOf, old(input[pos..])) == Size(size, pos - old(pos))
      ensures !err.Fine? ==> old(Meaning(cs)).payload == [] && ErrorOf(old(Meaning(cs)).end) == err
      ensures !err.EndOfFile?
    {
      size := 0;
      match ReadHeader(sizeOf, input[pos..])
      case Cut =>
        pos := |input|;
        err := Translated(WireError(wire));
      case Invalid(skip) =>
        pos := pos + skip;
        err := Malformed;
      case Size(n, len) =>
        pos := pos + len;
        size, err := n, Fine;
    }

    /** Consumes the line end behind a chunk; if the bytes run out here, even an early end is malformed. */
    method ConsumeLineEnd() returns (err: ReadError)
      requires Valid()
      modifies this`pos
      ensures Valid() && pos == Min(old(pos) + 2, |input|)
      ensures err == if old(pos) + 2 > |input| then (if wire.end.Fails? then Failed else Malformed)
                     else if input[old(pos)..old(pos) + 2] == CRLF then Fine else Malformed
    {
      if pos + 2 > |input| {
        pos := |input|;
        err := if wire.end.Fails? then Failed else Malformed;
      } else {
        err := if input[pos] == CR && input[pos + 1] == LF then Fine else Malformed;
        pos := pos + 2;
      }
    }

    /**
     The buffered reader underneath: some of the next k bytes, at least one unless the input is at
     its end.  The end is reported by itself, or along with the last bytes when the wire does that.
     */
    method ReadSome(k: nat) returns (out: bytes, err: ReadError)
      requires Valid() && k > 0
      modifies this`pos
      ensures Valid() && pos == old(pos) + |out|
      ensures |out| <= k && out == input[old(pos)..pos]
      ensures out == [] ==> old(pos) == |input|
      ensures err == if pos == |input| && (out == [] || wire.joint) then WireError(wire) else Fine
    {
      if pos == |input| {
        out, err := [], WireError(wire);
      } else {
        var m :| 1 <= m <= k && m <= |input| - pos;
        out := input[pos..pos + m];
        pos := pos + m;
        err := if pos == |input| && wire.joint then WireError(wire) else Fine;
      }
    }

    /** Takes bytes of the current chunk, not yet its line end. */
    method TakeBytes(k: nat) returns (out: bytes, err: ReadError)
      requires Valid() && chunked && !done && remaining > 0 && k > 0
      modifies this`pos, this`remaining, this`count
      ensures Valid() && |out| <= k && out <= old(input[pos..])
      ensures input[pos..] == old(input[pos..])[|out|..]
      ensures remaining == old(remaining) - |out| && count == old(count) + |out|
      ensures out == [] ==> old(input[pos..]) == []
      ensures err == if input[pos..] == [] && (out == [] || wire.joint) then Translated(WireError(wire)) else Fine
    {
      out, err := ReadSome(Min(k, remaining));
      remaining := remaining - |out|;
      count := count + |out|;
      err := Translated(err);
    }

    /** The same, with what it does to the meaning unless the chunk is used up. */
    method TakeData(k: nat, ghost cs: nat) returns (out: bytes, err: ReadError)
      requires Valid() && chunked && !done && remaining > 0 && k > 0
      modifies this`pos, this`remaining, this`count
      ensures Valid() && |out| <= k && out <= old(input[pos..]) && input[pos..] == old(input[pos..])[|out|..]
      ensures remaining == old(remaining) - |out| && count == old(count) + |out| && !err.EndOfFile?
      ensures !err.Fine? ==> ErrorRead(old(Meaning(cs)), out, Meaning(cs), err, count, cs)
      ensures err.Fine? ==> out != [] && (input[pos..] == [] ==> !wire.joint)
      ensures err.Fine? && remaining > 0 ==> old(Meaning(cs)) == Prepend(out, Meaning(cs))
    {
      ghost var inp, rem, at := input[pos..], remaining, count;
      out, err := TakeBytes(k);
      assert out == inp[..|out|];
      if !err.Fine? {
        EndRead(sizeOf, wire, inp, rem, at, cs, |out|);
      } else if remaining > 0 {
        DecodeSome(sizeOf, wire, inp, rem, at, Full(cs), |out|);
      }
    }

    /** Delivers bytes of the current chunk, and takes its line end once it is used up. */
    method ReadData(k: nat, ghost cs: nat) returns (out: bytes, err: ReadError)
      requires Valid() && chunked && !done && remaining > 0 && k > 0
      modifies this`pos, this`remaining, this`count
      ensures Valid() && count == old(count) + |out| && |out| <= k && !err.EndOfFile?
      ensures err.Fine? ==> out != [] && old(Meaning(cs)) == Prepend(out, Meaning(cs))
      ensures !err.Fine? ==> ErrorRead(old(Meaning(cs)), out, Meaning(cs), err, count, cs)
    {
      ghost var inp, rem, at := input[pos..], remaining, count;
      out, err := TakeData(k, cs);
      if err.Fine? && remaining == 0 {
        assert out == inp[..|out|];
        err := EndData(inp, rem, at, cs);
      }
    }

    /** The line end behind a chunk that was just used up. */
    method EndData(ghost inp: bytes, ghost rem: nat, ghost at: nat, ghost cs: nat) returns (err: ReadError)
      requires Valid() && chunked && !done && remaining == 0
      requires 0 < rem <= |inp| && input[pos..] == inp[rem..] && count == at + rem
      requires input[pos..] == [] ==> !wire.joint
      modifies this`pos
      ensures Valid() && !err.EndOfFile?
      ensures err.Fine? ==> Decode(sizeOf, wire, inp, rem, at, Full(cs)) == Prepend(inp[..rem], Meaning(cs))
      ensures !err.Fine? ==>
                ErrorRead(Decode(sizeOf, wire, inp, rem, at, Full(cs)), inp[..rem], Meaning(cs), err, count, cs)
    {
      ghost var left := input[pos..];
      err := ConsumeLineEnd();
      assert |left| >= 2 ==> input[pos..] == left[2..];
      assert |left| < 2 ==> input[pos..] == [];
      if |left| < 2 {
        LineEndMissing(sizeOf, wire, inp, rem, at, cs, left, err);
      } else {
        LineEndRead(sizeOf, wire, inp, rem, at, cs, left);
      }
    }

    /** One Read of at most k bytes. */
    method Read(k: nat, ghost cs: nat) returns (out: bytes, err: ReadError)
      requires Valid() && k > 0
      modifies this
      ensures Valid() && count == old(count) + |out| && |out| <= k
      ensures err.Fine? ==> out != [] && old(Meaning(cs)) == Prepend(out, Meaning(cs))
      ensures !err.Fine? ==> ErrorRead(old(Meaning(cs)), out, Meaning(cs), err, count, cs)
      ensures err.EndOfFile? ==> Meaning(cs) == Stream([], Clean)
    {
      out := [];
      if !chunked {
        ghost var inp := input[pos..];
        out, err := ReadSome(k);
        assert inp == out + input[pos..];
        count := count + |out|;
        return;
      }
      if done {
        return [], EndOfFile;
      }
      if remaining == 0 {
        var herr := NextChunk(cs);
        if !herr.Fine? {
          return [], herr;
        }
      }
      out, err := ReadData(k, cs);
    }

    /** Moves on to the next chunk, or notices that there is none. */
    method NextChunk(ghost cs: nat) returns (err: ReadError)
      requires Valid() && chunked && !done && remaining == 0
      modifies this`pos, this`remaining, this`done
      ensures Valid()
      ensures err.Fine? ==> !done && remaining > 0 && Meaning(cs) == old(Meaning(cs))
      ensures !err.Fine? ==> old(Meaning(cs)).payload == [] && ErrorOf(old(Meaning(cs)).end) == err
      ensures err.EndOfFile? ==> Meaning(cs) == Stream([], Clean)
    {
      ghost var inp := input[pos..];
      var size;
      size, err := ReadChunkSize(cs);
      if err.Fine? {
        assert input[pos..] == inp[pos - old(pos)..];
        if size == 0 {
          done := true;
          err := EndOfFile;
        } else {
          remaining := size;
        }
      }
    }
  }

  /**
   What a read that reports an error says about the stream: `out` is all that was left and the error
   tells its ending; but where the caller's buffer is full the error is not seen, and the stream as
   that caller sees it goes on.
   */
  ghost predicate ErrorRead(was: Stream, out: bytes, now: Stream, err: ReadError, count: nat, cs: nat) {
    if out != [] && Full(cs)(count) then was == Prepend(out, now)
    else was.payload == out && ErrorOf(was.end) == err
  }

  /** The wire ends in chunk data, or right behind it and along with the last bytes. */
  lemma {:induction false} EndRead(hv: SizeParser, w: Wire, inp: bytes, rem: nat, at: nat, cs: nat, m: nat)
    requires m == |inp| <= rem && rem > 0 && (m == rem ==> w.joint)
    ensures ErrorRead(Decode(hv, w, inp, rem, at, Full(cs)), inp[..m],
                      Decode(hv, w, inp[m..], rem - m, at + m, Full(cs)), Translated(WireError(w)), at + m, cs)
  {
    assert inp[m..] == [];
    DecodeEmpty(hv, w, rem - m, at + m, Full(cs));
    EndsHere(hv, w, inp, rem, at, Full(cs));
  }

  lemma {:induction false} EndsHere(hv: SizeParser, w: Wire, inp: bytes, rem: nat, at: nat, blind: Blind)
    requires |inp| <= rem && rem > 0 && (|inp| == rem ==> w.joint)
    ensures Decode(hv, w, inp, rem, at, blind) == Stream(inp, EndSeen(w))
  {
  }

  lemma LineEndMissing(hv: SizeParser, w: Wire, inp: bytes, rem: nat, at: nat, cs: nat, left: bytes, err: ReadError)
    requires 0 < rem <= |inp| && left == inp[rem..] && |left| < 2 && (left == [] ==> !w.joint)
    requires err == if w.end.Fails? then Failed else Malformed
    ensures ErrorRead(Decode(hv, w, inp, rem, at, Full(cs)), inp[..rem],
                      Decode(hv, w, [], 0, at + rem, Full(cs)), err, at + rem, cs)
  {
    DecodeEmpty(hv, w, 0, at + rem, Full(cs));
  }

  lemma LineEndRead(hv: SizeParser, w: Wire, inp: bytes, rem: nat, at: nat, cs: nat, left: bytes)
    requires 0 < rem <= |inp| && left == inp[rem..] && |left| >= 2
    ensures left[..2] == CRLF ==>
              Decode(hv, w, inp, rem, at, Full(cs))
                == Prepend(inp[..rem], Decode(hv, w, left[2..], 0, at + rem, Full(cs)))
    ensures left[..2] != CRLF ==>
              ErrorRead(Decode(hv, w, inp, rem, at, Full(cs)), inp[..rem],
                        Decode(hv, w, left[2..], 0, at + rem, Full(cs)), Malformed, at + rem, cs)
  {
    WholeChunk(hv, w, inp, rem, at, Full(cs));
    assert inp[rem..rem + 2] == left[..2];
    assert inp[rem + 2..] == left[2..];
  }

  /** Reads to the end with reads of any positive sizes. */
  method ReadToEnd(body: Body, sizes: nat -> nat) returns (all: bytes, err: ReadError)
    requires body.Valid()
    modifies body
    ensures all == old(body.Meaning(0)).payload && err == ErrorOf(old(body.Meaning(0)).end)
    ensures err.EndOfFile? ==> body.Valid() && body.Meaning(0) == Stream([], Clean)
  {
    all, err := [], Fine;
    var i := 0;
    while err.Fine?
      invariant body.Valid()
      invariant err.Fine? ==> old(body.Meaning(0)) == Prepend(all, body.Meaning(0))
      invariant !err.Fine? ==> old(body.Meaning(0)).payload == all && ErrorOf(old(body.Meaning(0)).end) == err
      invariant err.EndOfFile? ==> body.Meaning(0) == Stream([], Clean)
      decreases err.Fine?, |body.Meaning(0).payload|
    {
      ghost var was := body.Meaning(0);
      var out;
      out, err := body.Read(1 + sizes(i), 0);
      assert old(body.Meaning(0)) == Prepend(all, was);
      assert all + was.payload == (all + out) + was.payload[|out|..];
      all := all + out;
      i := i + 1;
    }
  }

  /** What filling a buffer reports when the body ends before it is full. */
  function ShortError(got: bytes, e: Ending): ReadError {
    if ErrorOf(e).EndOfFile? && got != [] then UnexpectedEnd else ErrorOf(e)
  }

  /** Fills a buffer of cs bytes; an error that arrives with the last byte of a full buffer is dropped. */
  method ReadFull(body: Body, cs: nat) returns (buf: bytes, err: ReadError)
    requires body.Valid() && cs > 0 && body.count % cs == 0
    modifies body
    ensures body.Valid() && body.count == old(body.count) + |buf|
    ensures var was := old(body.Meaning(cs));
            if |was.payload| >= cs then
              err.Fine? && |buf| == cs && was == Prepend(buf, body.Meaning(cs))
            else
              buf == was.payload && err == ShortError(buf, was.end)
  {
    ghost var was, now := body.Meaning(cs), body.Meaning(cs);
    buf, err := [], Fine;
    while |buf| < cs && err.Fine?
      invariant body.Valid() && body.count == old(body.count) + |buf| && |buf| <= cs && body.Meaning(cs) == now
      invariant err.Fine? || |buf| == cs ==> was == Prepend(buf, now)
      invariant !err.Fine? && |buf| < cs ==> was.payload == buf && ErrorOf(was.end) == err
      decreases cs - |buf|, err.Fine?
    {
      var out;
      ghost var next;
      out, err, next := ReadMore(body, cs, cs - |buf|, now);
      FullIsAligned(old(body.count), |buf| + |out|, cs);
      Filling(was, buf, now, out, next, err, body.count, cs);
      buf, now := buf + out, next;
    }
    if |buf| >= cs {
      err := Fine;
    } else if |buf| > 0 && err.EndOfFile? {
      err := UnexpectedEnd;
    }
  }

  /** One read, with the streams before and after it. */
  method ReadMore(body: Body, ghost cs: nat, k: nat, ghost was: Stream)
    returns (out: bytes, err: ReadError, ghost now: Stream)
    requires body.Valid() && k > 0 && body.Meaning(cs) == was
    modifies body
    ensures body.Valid() && body.count == old(body.count) + |out| && |out| <= k && body.Meaning(cs) == now
    ensures err.Fine? ==> out != [] && was == Prepend(out, now)
    ensures !err.Fine? ==> ErrorRead(was, out, now, err, body.count, cs)
  {
    out, err := body.Read(k, cs);
    now := body.Meaning(cs);
  }

  lemma Filling(was: Stream, buf: bytes, now: Stream, out: bytes, next: Stream, err: ReadError, count: nat, cs: nat)
    requires cs > 0 && was == Prepend(buf, now) && |buf| < cs && |buf| + |out| <= cs
    requires Full(cs)(count) <==> |buf| + |out| == 0 || |buf| + |out| == cs
    requires if err.Fine? then now == Prepend(out, next) else ErrorRead(now, out, next, err, count, cs)
    ensures err.Fine? || |buf| + |out| == cs ==> was == Prepend(buf + out, next)
    ensures !err.Fine? && |buf| + |out| < cs ==> was.payload == buf + out && ErrorOf(was.end) == err
  {
    if now == Prepend(out, next) { PrependTwice(buf, out, next); }
  }

  lemma FullIsAligned(at: nat, n: nat, cs: nat)
    requires cs > 0 && at % cs == 0 && n <= cs
    ensures (at + n) % cs == 0 <==> n == 0 || n == cs
  {
    assert at == (at / cs) * cs;
    if 0 < n < cs {
      ModOf(at + n, at / cs, n, cs);
    } else if n == cs {
      ModOf(at + n, at / cs + 1, 0, cs);
    }
  }

  lemma ModOf(x: nat, q: nat, r: nat, w: nat)
    requires w > 0 && r < w && x == q * w + r
    ensures x % w == r
  {
    Alignment.DivUnique(x, q, r, w);
  }
}
