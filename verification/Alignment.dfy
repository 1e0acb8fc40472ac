/** Window arithmetic of the prefetch reader: aligned windows cover [start, end) and trimming cuts them back. */
module Alignment {
  import opened Bytes

  function AlignedStart(start: nat, window: nat): nat
    requires window > 0
  {
    start - start % window
  }

  function AlignedEnd(end: nat, window: nat): nat
    requires window > 0
  {
    if end % window != 0 then end + (window - end % window) else end
  }

  function WindowCount(start: nat, end: nat, window: nat): nat
    requires window > 0
  {
    if start >= end then 0
    else Max(0, (AlignedEnd(end, window) - AlignedStart(start, window)) / window)
  }

  function WindowStart(start: nat, window: nat, i: nat): nat
    requires window > 0
  {
    AlignedStart(start, window) + i * window
  }

  /** The part of `data`, which sits at object offset `off`, that lies in [start, end). */
  function TrimTo(off: nat, data: bytes, start: nat, end: nat): bytes {
    var lo := Max(off, start);
    var hi := Min(off + |data|, end);
    if hi <= lo then [] else data[lo - off..hi - off]
  }

  /** The bytes of `obj` in [from, to) that exist. */
  function Span(obj: bytes, from: nat, to: nat): bytes
    requires from <= to
  {
    obj[Min(from, |obj|)..Min(to, |obj|)]
  }

  /** [start, end) cut off after `stop`. */
  function Clip(start: nat, end: nat, stop: nat): nat
    requires start <= end
  {
    Max(start, Min(stop, end))
  }

  lemma MulMono(a: int, b: int, w: int)
    requires a <= b && 0 <= w
    ensures a * w <= b * w
  {
    assert (b - a) * w >= 0;
  }

  lemma DivUnique(x: int, q: int, r: int, w: int)
    requires 0 <= r < w && x == q * w + r
    ensures x / w == q
  {
    assert x == (x / w) * w + x % w;
    if x / w > q {
      MulMono(q + 1, x / w, w);
    } else if x / w < q {
      MulMono(x / w + 1, q, w);
    }
  }

  lemma AlignedStartIs(start: nat, w: nat)
    requires w > 0
    ensures AlignedStart(start, w) == (start / w) * w
  {
  }

  /** Rounding up lands on the first multiple of the window at or after `end`. */
  lemma AlignedEndIs(end: nat, w: nat) returns (q: nat)
    requires w > 0
    ensures AlignedEnd(end, w) == q * w
    ensures end <= q * w < end + w
  {
    q := if end % w == 0 then end / w else end / w + 1;
    assert end == (end / w) * w + end % w;
    assert (end / w + 1) * w == (end / w) * w + w;
  }

  lemma WindowsCover(start: nat, end: nat, w: nat)
    requires w > 0 && start < end
    ensures WindowStart(start, w, 0) <= start
    ensures WindowCount(start, end, w) > 0
    ensures WindowStart(start, w, WindowCount(start, end, w)) >= end
  {
    var p := start / w;
    AlignedStartIs(start, w);
    var q := AlignedEndIs(end, w);
    if q <= p {
      MulMono(q, p, w);
    } else {
      CountIs(AlignedStart(start, w), AlignedEnd(end, w), p, q, w);
    }
  }

  lemma CountIs(a: int, b: int, p: int, q: int, w: int)
    requires w > 0 && a == p * w && b == q * w
    ensures (b - a) / w == q - p
    ensures a + (q - p) * w == b
  {
    assert (q - p) * w == q * w - p * w;
    DivUnique(b - a, q - p, 0, w);
  }

  lemma WindowNext(start: nat, w: nat, i: nat)
    requires w > 0
    ensures WindowStart(start, w, i + 1) == WindowStart(start, w, i) + w
  {
    assert (i + 1) * w == i * w + w;
  }

  /** Trimming a full window read leaves exactly its share of the requested range. */
  lemma TrimFullWindow(obj: bytes, off: nat, w: nat, start: nat, end: nat)
    requires start <= end
    ensures Clip(start, end, off) <= Clip(start, end, off + w)
    ensures TrimTo(off, Span(obj, off, off + w), start, end)
         == Span(obj, Clip(start, end, off), Clip(start, end, off + w))
  {
    if off < |obj| {
      var lo, hi := Max(off, start), Min(off + |Span(obj, off, off + w)|, end);
      if lo < hi {
        SubSpan(obj, off, off + w, lo, hi);
      }
    }
  }

  lemma SubSpan(obj: bytes, from: nat, to: nat, lo: nat, hi: nat)
    requires from <= lo <= hi <= to && hi <= |obj|
    ensures Span(obj, from, to)[lo - from..hi - from] == obj[lo..hi]
  {
    var win := Span(obj, from, to);
    assert forall k :: 0 <= k < |win| ==> win[k] == obj[from + k];
  }

  lemma SpanSplit(obj: bytes, a: nat, b: nat, c: nat)
    requires a <= b <= c
    ensures Span(obj, a, c) == Span(obj, a, b) + Span(obj, b, c)
  {
  }

  lemma ClipStep(obj: bytes, start: nat, end: nat, off: nat, w: nat)
    requires start <= end
    ensures Clip(start, end, off) <= Clip(start, end, off + w)
    ensures Span(obj, start, Clip(start, end, off + w))
         == Span(obj, start, Clip(start, end, off)) + Span(obj, Clip(start, end, off), Clip(start, end, off + w))
  {
    SpanSplit(obj, start, Clip(start, end, off), Clip(start, end, off + w));
  }

  lemma FirstWindow(start: nat, w: nat)
    requires w > 0
    ensures WindowStart(start, w, 0) <= start
  {
  }
}
