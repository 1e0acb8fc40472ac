/** How an object is cut into chunks of a fixed size, and that the chunks put it together again. */
module Splitting {
  import opened Bytes

  /** Windows of cs bytes; the last one may be shorter. */
  function Split(body: bytes, cs: nat): seq<bytes>
    requires cs > 0
    decreases |body|
  {
    if body == [] then [] else [body[..Min(cs, |body|)]] + Split(body[Min(cs, |body|)..], cs)
  }

  function Concat(parts: seq<bytes>): bytes {
    if parts == [] then [] else parts[0] + Concat(parts[1..])
  }

  /** A chunk of an object: its number, where it starts, and its bytes. */
  datatype Piece = Piece(seqNo: nat, offset: nat, data: bytes)

  /** Numbers the parts from `first` and places them end to end from `offset`. */
  function Layout(parts: seq<bytes>, first: nat, offset: nat): seq<Piece> {
    if parts == [] then []
    else [Piece(first, offset, parts[0])] + Layout(parts[1..], first + 1, offset + |parts[0]|)
  }

  lemma {:induction false} SplitConcat(body: bytes, cs: nat)
    requires cs > 0
    ensures Concat(Split(body, cs)) == body
    decreases |body|
  {
    if body != [] {
      var n := Min(cs, |body|);
      SplitConcat(body[n..], cs);
      assert Split(body, cs)[1..] == Split(body[n..], cs);
      assert body == body[..n] + body[n..];
    }
  }

  /** Every part has cs bytes but the last, which has at least one and no more than that. */
  lemma {:induction false} SplitSizes(body: bytes, cs: nat, i: nat)
    requires cs > 0 && i < |Split(body, cs)|
    ensures i < |Split(body, cs)| - 1 ==> |Split(body, cs)[i]| == cs
    ensures 1 <= |Split(body, cs)[i]| <= cs
    decreases |body|
  {
    var n := Min(cs, |body|);
    if i > 0 {
      SplitSizes(body[n..], cs, i - 1);
      assert Split(body, cs)[i] == Split(body[n..], cs)[i - 1];
    } else if |Split(body, cs)| > 1 {
      assert body[n..] != [];
    }
  }

  /** The pieces lie end to end, numbered densely, and each holds exactly its slice. */
  lemma {:induction false} LayoutTiles(parts: seq<bytes>, first: nat, offset: nat)
    ensures var l := Layout(parts, first, offset);
            && |l| == |parts|
            && (forall i :: 0 <= i < |l| ==> l[i].seqNo == first + i && l[i].data == parts[i])
            && (|l| > 0 ==> l[0].offset == offset && l[|l| - 1].offset + |l[|l| - 1].data| == offset + |Concat(parts)|)
            && (forall i :: 0 <= i < |l| - 1 ==> l[i + 1].offset == l[i].offset + |l[i].data|)
    decreases |parts|
  {
    if parts != [] {
      LayoutTiles(parts[1..], first + 1, offset + |parts[0]|);
      var l, m := Layout(parts, first, offset), Layout(parts[1..], first + 1, offset + |parts[0]|);
      assert l[1..] == m;
      assert forall i :: 1 <= i < |l| ==> l[i] == m[i - 1];
    }
  }

  /** Piece i holds obj[offset .. offset + size) where obj is the parts put together. */
  lemma {:induction false} LayoutSlices(parts: seq<bytes>, first: nat, before: bytes, i: nat)
    requires i < |Layout(parts, first, |before|)|
    ensures var p := Layout(parts, first, |before|)[i]; var obj := before + Concat(parts);
            p.offset + |p.data| <= |obj| && obj[p.offset..p.offset + |p.data|] == p.data
    decreases |parts|
  {
    var obj := before + Concat(parts);
    var next := before + parts[0];
    assert obj == next + Concat(parts[1..]);
    if i == 0 {
      assert obj[|before|..|next|] == parts[0];
    } else {
      LayoutSlices(parts[1..], first + 1, next, i - 1);
    }
  }
}
