/** Bytes, options and the few sequence facts that every component shares. */
module Bytes {

  type byte = x: int | 0 <= x < 256

  type bytes = seq<byte>

  datatype Option<+T> = None | Some(value: T)

  function Min(a: int, b: int): int {
    if a <= b then a else b
  }

  function Max(a: int, b: int): int {
    if a >= b then a else b
  }

  /** Elements in order, no two equal. */
  ghost predicate NoDup<T>(s: seq<T>) {
    forall i, j :: 0 <= i < j < |s| ==> s[i] != s[j]
  }

  /** `whole` is the pieces end to end, piece i from at[i] to at[i + 1]. */
  ghost predicate EndToEnd(whole: bytes, pieces: seq<bytes>, at: seq<nat>) {
    && |at| == |pieces| + 1 && at[0] == 0 && at[|pieces|] == |whole|
    && forall i: nat :: i < |pieces| ==> PieceAt(whole, pieces[i], at[i], at[i + 1])
  }

  ghost predicate PieceAt(whole: bytes, piece: bytes, from: nat, to: nat) {
    from <= to <= |whole| && to == from + |piece| && whole[from..to] == piece
  }

  lemma EndToEndMore(whole: bytes, pieces: seq<bytes>, at: seq<nat>, p: bytes)
    requires EndToEnd(whole, pieces, at)
    ensures EndToEnd(whole + p, pieces + [p], at + [|whole| + |p|])
  {
    var now, all := at + [|whole| + |p|], whole + p;
    forall i: nat | i < |pieces| ensures PieceAt(all, pieces[i], now[i], now[i + 1]) {
      assert PieceAt(whole, pieces[i], at[i], at[i + 1]);
      SliceOfFront(whole, p, at[i], at[i + 1]);
    }
    assert PieceAt(all, p, |whole|, |all|);
  }

  lemma SliceOfFront(a: bytes, b: bytes, from: nat, to: nat)
    requires from <= to <= |a|
    ensures (a + b)[from..to] == a[from..to]
  {
  }
}
