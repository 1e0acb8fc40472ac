/** Byte order on keys, as the database collates them, and what it means for keys that share a prefix. */
module ByteOrder {
  import opened Bytes

  predicate Less(a: bytes, b: bytes) {
    b != [] && (a == [] || a[0] < b[0] || (a[0] == b[0] && Less(a[1..], b[1..])))
  }

  predicate StartsWith(k: bytes, p: bytes) {
    |p| <= |k| && k[..|p|] == p
  }

  ghost predicate Ascending(s: seq<bytes>) {
    forall i, j :: 0 <= i < j < |s| ==> Less(s[i], s[j])
  }

  lemma {:induction false} LessIrreflexive(a: bytes)
    ensures !Less(a, a)
  {
    if a != [] { LessIrreflexive(a[1..]); }
  }

  /** Byte order, said outright: the first difference decides, and a proper prefix comes first. */
  lemma {:induction false} LessMeans(a: bytes, b: bytes)
    ensures Less(a, b) <==>
            exists i: nat :: i <= |a| && i < |b| && a[..i] == b[..i] && (i == |a| || a[i] < b[i])
  {
    if a != [] && b != [] && a[0] == b[0] {
      LessMeans(a[1..], b[1..]);
      if Less(a, b) {
        var i: nat :| i <= |a[1..]| && i < |b[1..]| && a[1..][..i] == b[1..][..i]
          && (i == |a[1..]| || a[1..][i] < b[1..][i]);
        assert a[..i + 1] == [a[0]] + a[1..][..i] && b[..i + 1] == [b[0]] + b[1..][..i];
      }
      if i: nat :| i <= |a| && i < |b| && a[..i] == b[..i] && (i == |a| || a[i] < b[i]) {
        assert i > 0;
        assert a[1..][..i - 1] == a[..i][1..] && b[1..][..i - 1] == b[..i][1..];
      }
    } else if b != [] {
      assert a[..0] == b[..0];
      SameHead(a, b);
    }
  }

  lemma SameHead(a: bytes, b: bytes)
    ensures forall i: nat :: 0 < i <= |a| && i <= |b| && a[..i] == b[..i] ==> a[0] == b[0]
  {
    forall i: nat | 0 < i <= |a| && i <= |b| && a[..i] == b[..i] ensures a[0] == b[0] {
      assert a[..i][0] == b[..i][0];
    }
  }

  lemma {:induction false} LessTrans(a: bytes, b: bytes, c: bytes)
    requires Less(a, b) && Less(b, c)
    ensures Less(a, c)
  {
    if a != [] && a[0] == b[0] && b[0] == c[0] { LessTrans(a[1..], b[1..], c[1..]); }
  }

  lemma {:induction false} LessTotal(a: bytes, b: bytes)
    ensures Less(a, b) || a == b || Less(b, a)
  {
    if a != [] && b != [] && a[0] == b[0] {
      LessTotal(a[1..], b[1..]);
      assert a == [a[0]] + a[1..] && b == [b[0]] + b[1..];
    }
  }

  lemma LessDiffers(a: bytes, b: bytes)
    ensures Less(a, b) ==> a != b
  {
    LessIrreflexive(a);
  }

  lemma LessAsym(a: bytes, b: bytes)
    requires Less(a, b)
    ensures !Less(b, a) && a != b
  {
    LessIrreflexive(a);
    if Less(b, a) { LessTrans(a, b, a); }
  }

  /** Moving the bound down keeps a key above it. */
  lemma LessFrom(a: bytes, b: bytes, c: bytes)
    requires !Less(b, a) && Less(b, c)
    ensures Less(a, c)
  {
    LessTotal(a, b);
    if a != b { LessTrans(a, b, c); }
  }

  lemma StartsWithTail(k: bytes, p: bytes)
    requires p != [] && k != []
    ensures StartsWith(k, p) <==> k[0] == p[0] && StartsWith(k[1..], p[1..])
  {
    if |p| <= |k| {
      assert k[..|p|] == [k[0]] + k[1..][..|p| - 1] && p == [p[0]] + p[1..];
    }
  }

  /** Keys that share a prefix are contiguous in byte order. */
  lemma {:induction false} Contiguous(p: bytes, a: bytes, b: bytes, c: bytes)
    requires StartsWith(a, p) && StartsWith(c, p) && !Less(b, a) && !Less(c, b)
    ensures StartsWith(b, p)
  {
    if p != [] {
      StartsWithTail(a, p);
      StartsWithTail(c, p);
      assert b != [];
      StartsWithTail(b, p);
      Contiguous(p[1..], a[1..], b[1..], c[1..]);
    }
  }

  /** Prefixes none of which starts the other are ordered as the keys they start. */
  lemma {:induction false} PrefixesOrdered(p: bytes, q: bytes, a: bytes, b: bytes)
    requires StartsWith(a, p) && StartsWith(b, q) && !StartsWith(p, q) && !StartsWith(q, p)
    requires Less(a, b)
    ensures Less(p, q)
  {
    assert p != [] && q != [];
    StartsWithTail(a, p);
    StartsWithTail(b, q);
    if p[0] == q[0] {
      StartsWithTail(p, q);
      StartsWithTail(q, p);
      PrefixesOrdered(p[1..], q[1..], a[1..], b[1..]);
    }
  }

  // ---------------------------------------------------------------- the upper bound of a prefix

  ghost predicate AllTop(p: bytes) {
    forall i :: 0 <= i < |p| ==> p[i] == 255
  }

  /** `hi` is `p` up to its last byte below 0xFF, that byte plus one; empty means there is no bound. */
  ghost predicate IsUpperBound(p: bytes, hi: bytes) {
    if hi == [] then AllTop(p)
    else
      && |hi| <= |p|
      && hi[..|hi| - 1] == p[..|hi| - 1]
      && p[|hi| - 1] < 255 && hi[|hi| - 1] == p[|hi| - 1] + 1
      && AllTop(p[|hi|..])
  }

  lemma {:induction false} TopScan(p: bytes, k: bytes)
    requires AllTop(p)
    ensures !Less(k, p) <==> StartsWith(k, p)
  {
    if p != [] && k != [] {
      StartsWithTail(k, p);
      TopScan(p[1..], k[1..]);
    }
  }

  /** The half-open range from a prefix to its upper bound holds exactly the keys that start with the prefix. */
  lemma {:induction false} ScanIsPrefix(p: bytes, hi: bytes, k: bytes)
    requires IsUpperBound(p, hi)
    ensures StartsWith(k, p) <==> !Less(k, p) && (hi == [] || Less(k, hi))
  {
    if hi == [] {
      TopScan(p, k);
    } else if k != [] {
      StartsWithTail(k, p);
      if |hi| == 1 {
        assert p[|hi|..] == p[1..];
        TopScan(p[1..], k[1..]);
      } else {
        BoundTail(p, hi);
        ScanIsPrefix(p[1..], hi[1..], k[1..]);
      }
    }
  }

  lemma BoundTail(p: bytes, hi: bytes)
    requires IsUpperBound(p, hi) && |hi| > 1
    ensures IsUpperBound(p[1..], hi[1..]) && p[0] == hi[0]
  {
    assert p[1..][|hi| - 1..] == p[|hi|..];
    assert hi[1..][..|hi| - 2] == hi[..|hi| - 1][1..];
    assert p[1..][..|hi| - 2] == p[..|hi| - 1][1..];
    assert p[0] == p[..|hi| - 1][0];
  }

  /** Scans the prefix backwards for a byte it can raise. */
  method PrefixUpperBound(prefix: bytes) returns (hi: bytes)
    ensures IsUpperBound(prefix, hi)
    ensures forall k :: StartsWith(k, prefix) <==> !Less(k, prefix) && (hi == [] || Less(k, hi))
  {
    var i := |prefix| - 1;
    hi := [];
    while i >= 0
      invariant -1 <= i < |prefix|
      invariant AllTop(prefix[i + 1..])
    {
      if prefix[i] != 255 {
        hi := prefix[..i] + [prefix[i] + 1];
        break;
      }
      i := i - 1;
    }
    assert i == -1 ==> prefix[i + 1..] == prefix;
    assert IsUpperBound(prefix, hi);
    forall k ensures StartsWith(k, prefix) <==> !Less(k, prefix) && (hi == [] || Less(k, hi)) {
      ScanIsPrefix(prefix, hi, k);
    }
  }
}
