/** Object-space window reads translated to reads of stored chunks. */
module ChunkSource {
  import opened Bytes
  import opened Alignment
  import opened Storage
  import opened Replication

  /** One stored chunk and the object-space byte range it holds. */
  datatype ChunkLoc = ChunkLoc(ref: ChunkRef, offset: nat, size: nat)

  function End(loc: ChunkLoc): nat {
    loc.offset + loc.size
  }

  /** The chunks lie end to end and cover [0, size). */
  ghost predicate Tiles(locs: seq<ChunkLoc>, size: nat) {
    && (|locs| == 0 ==> size == 0)
    && (|locs| > 0 ==> locs[0].offset == 0 && End(locs[|locs| - 1]) == size)
    && (forall i :: 0 <= i < |locs| - 1 ==> locs[i + 1].offset == End(locs[i]))
  }

  lemma {:induction false} TilesSorted(locs: seq<ChunkLoc>, size: nat, i: nat, j: nat)
    requires Tiles(locs, size) && i <= j < |locs|
    ensures locs[i].offset <= locs[j].offset
    ensures i < j ==> End(locs[i]) <= locs[j].offset
    ensures End(locs[j]) <= size
    decreases |locs| - j, j - i
  {
    if j < |locs| - 1 {
      TilesSorted(locs, size, j, j + 1);
    }
    if i < j {
      assert locs[i + 1].offset == End(locs[i]);
      if i + 1 < j {
        TilesSorted(locs, size, i + 1, j);
      }
    }
  }

  predicate Contains(loc: ChunkLoc, offset: nat) {
    loc.offset <= offset < End(loc)
  }

  /** Binary search for the last chunk that starts at or before `offset`. */
  method Locate(locs: seq<ChunkLoc>, size: nat, offset: nat) returns (found: Option<nat>)
    requires Tiles(locs, size)
    ensures found.Some? <==> offset < size
    ensures found.Some? ==> found.value < |locs| && Contains(locs[found.value], offset)
    ensures forall k :: 0 <= k < |locs| && Contains(locs[k], offset) ==> found == Some(k)
  {
    var lo, hi := 0, |locs|;
    while lo < hi
      invariant 0 <= lo <= hi <= |locs|
      invariant forall k :: 0 <= k < lo ==> locs[k].offset <= offset
      invariant forall k :: hi <= k < |locs| ==> locs[k].offset > offset
    {
      var mid := (lo + hi) / 2;
      if locs[mid].offset > offset {
        forall k | mid <= k < |locs| ensures locs[k].offset > offset { TilesSorted(locs, size, mid, k); }
        hi := mid;
      } else {
        forall k | 0 <= k <= mid ensures locs[k].offset <= offset { TilesSorted(locs, size, k, mid); }
        lo := mid + 1;
      }
    }
    var i := lo - 1;
    forall k | 0 <= k < |locs| && Contains(locs[k], offset)
      ensures k == i && offset < size
    {
      TilesSorted(locs, size, k, k);
      if k < i { TilesSorted(locs, size, k, i); }
    }
    assert 0 <= i < |locs| - 1 ==> locs[i + 1].offset == End(locs[i]);
    if i < 0 || offset >= locs[i].offset + locs[i].size {
      found := None;
    } else {
      found := Some(i);
      assert Contains(locs[i], offset);
    }
  }

  // ---------------------------------------------------------------- stitching

  /** The providers as one read sees them: which are enabled and what each replica yields for a part of it. */
  datatype Backend = Backend(enabled: string -> bool, read: (Replica, nat, nat) -> ReadResult, hedging: bool)

  /** Every enabled replica fails to yield that part of the chunk. */
  ghost predicate PartFails(b: Backend, ref: ChunkRef, off: nat, n: nat) {
    forall x :: x in ref.replicas && b.enabled(x.provider) ==> b.read(x, off, n).Failed?
  }

  /** Replicas yield the chunk's own bytes, possibly fewer than asked for. */
  ghost predicate Truthful(b: Backend, locs: seq<ChunkLoc>, obj: bytes) {
    forall k, x, off: nat, n: nat ::
      && 0 <= k < |locs| && x in locs[k].ref.replicas && off + n <= locs[k].size && End(locs[k]) <= |obj|
      && b.read(x, off, n).Got?
      ==> b.read(x, off, n).data <= obj[locs[k].offset + off..locs[k].offset + off + n]
  }

  /** Replicas yield everything asked for or an error. */
  ghost predicate Complete(b: Backend, locs: seq<ChunkLoc>) {
    forall k, x, off: nat, n: nat ::
      && 0 <= k < |locs| && x in locs[k].ref.replicas && off + n <= locs[k].size
      && b.read(x, off, n).Got?
      ==> |b.read(x, off, n).data| == n
  }

  /** The part that [from, to) needs of one chunk, if any, cannot be read. */
  ghost predicate NeededReadFails(b: Backend, loc: ChunkLoc, from: nat, to: nat) {
    var lo := Max(from, loc.offset);
    var hi := Min(to, End(loc));
    lo < hi && PartFails(b, loc.ref, lo - loc.offset, hi - lo)
  }

  /** Some part that [from, to) needs cannot be read. */
  ghost predicate SomeNeededFails(b: Backend, locs: seq<ChunkLoc>, from: nat, to: nat) {
    exists k :: 0 <= k < |locs| && NeededReadFails(b, locs[k], from, to)
  }

  /** Every chunk that lies before `cur`, as far as [from, to) needs it, was read without a failure. */
  ghost predicate ReadBefore(b: Backend, locs: seq<ChunkLoc>, from: nat, to: nat, cur: nat) {
    && (cur == from || cur == to || forall k :: 0 <= k < |locs| ==> !(locs[k].offset < cur < End(locs[k])))
    && forall k :: 0 <= k < |locs| && locs[k].offset < cur && (End(locs[k]) <= cur || cur == to) ==>
         !NeededReadFails(b, locs[k], from, to)
  }

  lemma StartsRead(b: Backend, locs: seq<ChunkLoc>, from: nat, to: nat)
    requires from <= to
    ensures ReadBefore(b, locs, from, to, from)
  {
  }

  /** Reading on to the end of the chunk that holds `cur`. */
  lemma ReadOn(b: Backend, locs: seq<ChunkLoc>, size: nat, from: nat, to: nat, cur: nat, i: nat)
    requires Tiles(locs, size) && i < |locs| && Contains(locs[i], cur) && from <= cur < to
    requires ReadBefore(b, locs, from, to, cur)
    ensures cur == Max(from, locs[i].offset)
    ensures PartFails(b, locs[i].ref, cur - locs[i].offset, Min(End(locs[i]), to) - cur) <==>
            NeededReadFails(b, locs[i], from, to)
    ensures !NeededReadFails(b, locs[i], from, to) ==> ReadBefore(b, locs, from, to, Min(End(locs[i]), to))
  {
    forall k | 0 <= k < i ensures End(locs[k]) <= cur { TilesSorted(locs, size, k, i); }
    forall k | i < k < |locs| ensures End(locs[i]) <= locs[k].offset { TilesSorted(locs, size, i, k); }
  }

  lemma AllRead(b: Backend, locs: seq<ChunkLoc>, from: nat, to: nat)
    requires ReadBefore(b, locs, from, to, to)
    ensures !SomeNeededFails(b, locs, from, to)
  {
  }

  /** The error of a window whose deadline has expired. */
  const DEADLINE: int := -1

  /** How a read ends: with a result, or `expired` because the deadline of its window came first. */
  ghost predicate ReadEnds(r: ReadResult, expired: bool, deadline: bool, fails: bool) {
    && (r.Got? ==> !fails)
    && (r.Failed? ==> fails || expired)
    && (expired ==> deadline && r.Failed?)
  }

  /** One part of one chunk, through the hedged race over its replicas; with a deadline it may be given up. */
  method DownloadRangeBytes(b: Backend, ref: ChunkRef, off: nat, n: nat, deadline: bool)
    returns (r: ReadResult, expired: bool)
    ensures ReadEnds(r, expired, deadline, PartFails(b, ref, off, n))
    ensures r.Got? ==> exists x :: x in ref.replicas && b.read(x, off, n) == r
  {
    expired := false;
    ghost var at;
    var race, launched;
    race, launched, at := HedgedRead(ref.replicas, b.enabled, x => b.read(x, off, n), b.hedging, deadline);
    match race
    case Delivered(data) =>
      r := Got(data);
      ghost var x :| x in launched && b.read(x, off, n) == Got(data);
      assert x in EnabledOnly(ref.replicas, b.enabled);
    case NoReplicas =>
      r := Failed(0);
      assert forall x :: x in ref.replicas && b.enabled(x.provider) ==> x in EnabledOnly(ref.replicas, b.enabled);
    case EveryReadFailed(code) =>
      r := Failed(code);
    case Abandoned =>
      r, expired := Failed(DEADLINE), true;
  }

  lemma ReadIsSlice(b: Backend, locs: seq<ChunkLoc>, obj: bytes, k: nat, off: nat, n: nat, r: ReadResult)
    requires Truthful(b, locs, obj) && k < |locs| && off + n <= locs[k].size && End(locs[k]) <= |obj|
    requires r.Got? && exists x :: x in locs[k].ref.replicas && b.read(x, off, n) == r
    ensures r.data <= obj[locs[k].offset + off..locs[k].offset + off + n]
    ensures Complete(b, locs) ==> |r.data| == n
  {
  }

  method ReadSlice(b: Backend, locs: seq<ChunkLoc>, ghost obj: bytes, k: nat, off: nat, n: nat, deadline: bool)
    returns (r: ReadResult, expired: bool)
    requires Truthful(b, locs, obj) && k < |locs| && off + n <= locs[k].size && End(locs[k]) <= |obj|
    ensures ReadEnds(r, expired, deadline, PartFails(b, locs[k].ref, off, n))
    ensures r.Got? ==> r.data <= obj[locs[k].offset + off..locs[k].offset + off + n]
    ensures r.Got? && Complete(b, locs) ==> |r.data| == n
  {
    r, expired := DownloadRangeBytes(b, locs[k].ref, off, n, deadline);
    if r.Got? {
      ReadIsSlice(b, locs, obj, k, off, n, r);
    }
  }

  /** Reads from `cur` to the end of its chunk or of the window, whichever comes first. */
  method ReadPart(b: Backend, locs: seq<ChunkLoc>, ghost obj: bytes, size: nat, to: nat, cur: nat, deadline: bool)
    returns (r: ReadResult, next: nat, expired: bool, ghost i: nat)
    requires Tiles(locs, size) && |obj| == size && Truthful(b, locs, obj) && cur < to <= size
    ensures i < |locs| && Contains(locs[i], cur) && next == Min(End(locs[i]), to) && cur < next
    ensures ReadEnds(r, expired, deadline, PartFails(b, locs[i].ref, cur - locs[i].offset, next - cur))
    ensures r.Got? ==> r.data <= obj[cur..next]
    ensures r.Got? && Complete(b, locs) ==> |r.data| == next - cur
  {
    var found := Locate(locs, size, cur);
    i := found.value;
    var loc := locs[found.value];
    TilesSorted(locs, size, i, i);
    next := Min(loc.offset + loc.size, to);
    r, expired := ReadSlice(b, locs, obj, found.value, cur - loc.offset, next - cur, deadline);
  }

  /** Reads on from `cur`, keeping track of the reads that [from, to) needs. */
  method NextPart(b: Backend, locs: seq<ChunkLoc>, ghost obj: bytes, size: nat, ghost from: nat, to: nat, cur: nat,
                  deadline: bool)
    returns (r: ReadResult, next: nat, expired: bool)
    requires Tiles(locs, size) && |obj| == size && Truthful(b, locs, obj) && from <= cur < to <= size
    requires ReadBefore(b, locs, from, to, cur)
    ensures cur < next <= to
    ensures r.Failed? ==> SomeNeededFails(b, locs, from, to) || expired
    ensures expired ==> deadline && r.Failed?
    ensures r.Got? ==> r.data <= obj[cur..next] && ReadBefore(b, locs, from, to, next)
    ensures r.Got? && Complete(b, locs) ==> |r.data| == next - cur
  {
    ghost var i;
    r, next, expired, i := ReadPart(b, locs, obj, size, to, cur, deadline);
    PartRead(b, locs, size, from, to, cur, i, PartFails(b, locs[i].ref, cur - locs[i].offset, next - cur));
  }

  lemma PartRead(b: Backend, locs: seq<ChunkLoc>, size: nat, from: nat, to: nat, cur: nat, i: nat, failed: bool)
    requires Tiles(locs, size) && i < |locs| && Contains(locs[i], cur) && from <= cur < to
    requires ReadBefore(b, locs, from, to, cur)
    requires failed <==> PartFails(b, locs[i].ref, cur - locs[i].offset, Min(End(locs[i]), to) - cur)
    ensures failed ==> SomeNeededFails(b, locs, from, to)
    ensures !failed ==> ReadBefore(b, locs, from, to, Min(End(locs[i]), to))
  {
    ReadOn(b, locs, size, from, to, cur, i);
  }

  /**
   Reads [offset, offset + limit), cut at the end of the object.  A short backend read ends the
   loop without an error, so in general the result is only a prefix; when reads are complete it
   is the whole window, and it fails only when a part it needs cannot be read or the deadline of the
   window expires; it succeeds only when every part it needs can be read.
   */
  method Chunk(b: Backend, locs: seq<ChunkLoc>, ghost obj: bytes, size: nat, offset: nat, limit: nat, deadline: bool)
    returns (r: ReadResult, expired: bool)
    requires Tiles(locs, size) && |obj| == size && Truthful(b, locs, obj)
    ensures r.Got? ==> r.data <= Span(obj, offset, offset + limit)
    ensures r.Got? && Complete(b, locs) ==> r.data == Span(obj, offset, offset + limit)
    ensures r.Failed? ==> SomeNeededFails(b, locs, offset, Min(offset + limit, size)) || expired
    ensures r.Got? && Complete(b, locs) ==> !SomeNeededFails(b, locs, offset, Min(offset + limit, size))
    ensures expired ==> deadline && r.Failed?
  {
    if offset >= size {
      StartsRead(b, locs, offset, offset);
      return Got([]), false;
    }
    r, expired := Stitch(b, locs, obj, size, offset, Min(offset + limit, size), deadline);
  }

  /** Reads [from, to) part by part, until a part fails or comes up short. */
  method Stitch(b: Backend, locs: seq<ChunkLoc>, ghost obj: bytes, size: nat, from: nat, to: nat, deadline: bool)
    returns (r: ReadResult, expired: bool)
    requires Tiles(locs, size) && |obj| == size && Truthful(b, locs, obj) && from <= to <= size
    ensures r.Got? ==> r.data <= obj[from..to]
    ensures r.Got? && Complete(b, locs) ==> r.data == obj[from..to] && !SomeNeededFails(b, locs, from, to)
    ensures r.Failed? ==> SomeNeededFails(b, locs, from, to) || expired
    ensures expired ==> deadline && r.Failed?
  {
    expired := false;
    var out: bytes := [];
    var cur := from;
    StartsRead(b, locs, from, to);
    while cur < to
      invariant from <= cur <= to
      invariant out == obj[from..cur]
      invariant ReadBefore(b, locs, from, to, cur) && !expired
    {
      var got, next, late := NextPart(b, locs, obj, size, from, to, cur, deadline);
      if got.Failed? {
        return got, late;
      }
      JoinSlices(obj, from, cur, next, got.data);
      out := out + got.data;
      if |got.data| < next - cur {
        SlicePrefix(obj, from, next, to, out);
        return Got(out), false;
      }
      cur := next;
    }
    AllRead(b, locs, from, to);
    r := Got(out);
  }

  lemma JoinSlices(obj: bytes, from: nat, cur: nat, next: nat, part: bytes)
    requires from <= cur <= next <= |obj| && part <= obj[cur..next]
    ensures obj[from..cur] + part <= obj[from..next]
    ensures |part| == next - cur ==> obj[from..cur] + part == obj[from..next]
  {
    assert obj[from..next] == obj[from..cur] + obj[cur..next];
  }

  lemma SlicePrefix(obj: bytes, from: nat, next: nat, to: nat, out: bytes)
    requires from <= next <= to <= |obj| && out <= obj[from..next]
    ensures out <= obj[from..to]
  {
    assert obj[from..to][..next - from] == obj[from..next];
  }

  // ---------------------------------------------------------------- window size

  const MIN_WINDOW: nat := 0x1_0000

  const DEFAULT_WINDOW: nat := 0x40_0000

  function Halved(cs: nat, k: nat): nat {
    if k == 0 then cs else Halved(cs, k - 1) / 2
  }

  predicate FitsSpan(cs: nat, span: int) {
    cs <= 65536 || cs <= 2 * span || span <= 0
  }

  /** Halves the configured window just often enough to suit a tiny range. */
  method ChunkSize(configured: int, start: int, end: int) returns (cs: nat)
    ensures cs > 0
    ensures var base := if configured <= 0 then 4194304 else configured;
            && FitsSpan(cs, end - start) && cs <= base
            && (cs < base ==> !FitsSpan(base, end - start) && cs >= 32768 && cs >= end - start)
    ensures var base := if configured <= 0 then 4194304 else configured;
            exists k: nat :: cs == Halved(base, k) && FitsSpan(cs, end - start)
              && forall j: nat :: j < k ==> !FitsSpan(Halved(base, j), end - start)
  {
    cs := if configured <= 0 then DEFAULT_WINDOW else configured;
    ghost var base := cs;
    var span := end - start;
    ghost var k: nat := 0;
    while cs > MIN_WINDOW && cs > span * 2 && span > 0
      invariant 0 < cs <= base && cs == Halved(base, k)
      invariant cs < base ==> !FitsSpan(base, span) && cs >= 32768 && cs >= span
      invariant forall j: nat :: j < k ==> !FitsSpan(Halved(base, j), span)
      decreases cs
    {
      cs := cs / 2;
      k := k + 1;
    }
  }
}
