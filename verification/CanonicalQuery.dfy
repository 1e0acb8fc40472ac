/** The canonical query string that request signatures are computed over. */
module CanonicalQuery {
  import opened Bytes
  import opened ByteOrder

  const PERCENT: byte := 37
  const AMPERSAND: byte := 38
  const SLASH: byte := 47
  const EQUALS: byte := 61

  // ---------------------------------------------------------------- percent-encoding

  /** The unreserved characters of section 2.3 of RFC 3986: letters, digits, hyphen, period, underscore, tilde. */
  predicate Unreserved(c: byte) {
    65 <= c <= 90 || 97 <= c <= 122 || 48 <= c <= 57 || c == 45 || c == 46 || c == 95 || c == 126
  }

  predicate Literal(c: byte, encodeSlash: bool) {
    Unreserved(c) || (c == SLASH && !encodeSlash)
  }

  function UpperHex(d: nat): byte
    requires d < 16
  {
    if d < 10 then 48 + d else 55 + d
  }

  function EncodeByte(c: byte, encodeSlash: bool): bytes {
    if Literal(c, encodeSlash) then [c] else [PERCENT, UpperHex(c / 16), UpperHex(c % 16)]
  }

  function Encode(s: bytes, encodeSlash: bool): bytes {
    if s == [] then [] else EncodeByte(s[0], encodeSlash) + Encode(s[1..], encodeSlash)
  }

  lemma EncodeNext(r: bytes, s: bytes, i: nat, encodeSlash: bool)
    requires i < |s|
    ensures r + Encode(s[i..], encodeSlash) == (r + EncodeByte(s[i], encodeSlash)) + Encode(s[i + 1..], encodeSlash)
  {
    assert s[i..][1..] == s[i + 1..];
  }

  method AwsURIEncode(s: bytes, encodeSlash: bool) returns (r: bytes)
    ensures r == Encode(s, encodeSlash)
  {
    r := [];
    for i := 0 to |s|
      invariant r + Encode(s[i..], encodeSlash) == Encode(s, encodeSlash)
    {
      var c := s[i];
      EncodeNext(r, s, i, encodeSlash);
      if Literal(c, encodeSlash) {
        r := r + [c];
      } else {
        r := r + [PERCENT, UpperHex(c / 16), UpperHex(c % 16)];
      }
    }
  }

  /** `e` stands for `c`: itself if it may stand literally, otherwise a percent sign and two upper-case digits. */
  ghost predicate StandsFor(e: bytes, c: byte, encodeSlash: bool) {
    var x := c as char;
    if 'A' <= x <= 'Z' || 'a' <= x <= 'z' || '0' <= x <= '9' || x in "-._~" || (x == '/' && !encodeSlash) then
      e == [c]
    else
      && |e| == 3 && e[0] as char == '%'
      && e[1] as char == "0123456789ABCDEF"[c / 16] && e[2] as char == "0123456789ABCDEF"[c % 16]
  }

  lemma HexMeans(d: nat)
    requires d < 16
    ensures UpperHex(d) as char == "0123456789ABCDEF"[d]
  {
    if d < 10 {
      assert "0123456789ABCDEF"[d] == '0' + d as char;
    } else {
      assert "0123456789ABCDEF"[d] == 'A' + (d - 10) as char;
    }
  }

  lemma EncodeByteMeans(c: byte, encodeSlash: bool)
    ensures StandsFor(EncodeByte(c, encodeSlash), c, encodeSlash)
  {
    HexMeans(c / 16);
    HexMeans(c % 16);
  }

  lemma {:induction false} EncodeLast(s: bytes, c: byte, encodeSlash: bool)
    ensures Encode(s + [c], encodeSlash) == Encode(s, encodeSlash) + EncodeByte(c, encodeSlash)
  {
    if s == [] {
      assert (s + [c])[1..] == [];
    } else {
      assert (s + [c])[1..] == s[1..] + [c];
      EncodeLast(s[1..], c, encodeSlash);
    }
  }

  /** The encoding is what stands for each byte, end to end. */
  lemma {:induction false} EncodeMeans(s: bytes, encodeSlash: bool) returns (pieces: seq<bytes>, at: seq<nat>)
    ensures EndToEnd(Encode(s, encodeSlash), pieces, at) && |pieces| == |s|
    ensures forall i :: 0 <= i < |s| ==> StandsFor(pieces[i], s[i], encodeSlash)
  {
    if s == [] {
      pieces, at := [], [0];
    } else {
      var front, c := s[..|s| - 1], s[|s| - 1];
      var e := EncodeByte(c, encodeSlash);
      assert s == front + [c];
      EncodeLast(front, c, encodeSlash);
      pieces, at := EncodeMeans(front, encodeSlash);
      EncodeByteMeans(c, encodeSlash);
      EndToEndMore(Encode(front, encodeSlash), pieces, at, e);
      pieces, at := pieces + [e], at + [|Encode(front, encodeSlash)| + |e|];
    }
  }

  function HexValue(c: byte): Option<nat> {
    if 48 <= c <= 57 then Some(c - 48)
    else if 65 <= c <= 70 then Some(c - 55)
    else if 97 <= c <= 102 then Some(c - 87)
    else None
  }

  /** Percent-decoding as section 2.1 of RFC 3986 reads it; None for a broken triplet. */
  function Decode(s: bytes): Option<bytes> {
    if s == [] then Some([])
    else if s[0] != PERCENT then
      var rest := Decode(s[1..]);
      if rest.None? then None else Some([s[0]] + rest.value)
    else if |s| < 3 || HexValue(s[1]).None? || HexValue(s[2]).None? then None
    else
      var rest := Decode(s[3..]);
      var v := HexValue(s[1]).value * 16 + HexValue(s[2]).value;
      if rest.None? || v > 255 then None else Some([v] + rest.value)
  }

  /** Percent-decoding undoes the encoding of every byte string. */
  lemma {:induction false} DecodeEncode(s: bytes, encodeSlash: bool)
    ensures Decode(Encode(s, encodeSlash)) == Some(s)
  {
    if s != [] {
      DecodeEncode(s[1..], encodeSlash);
      var rest := Encode(s[1..], encodeSlash);
      if Literal(s[0], encodeSlash) {
        assert ([s[0]] + rest)[1..] == rest;
      } else {
        var e := EncodeByte(s[0], encodeSlash);
        assert (e + rest)[3..] == rest && (e + rest)[0] == e[0] && (e + rest)[1] == e[1] && (e + rest)[2] == e[2];
      }
      assert [s[0]] + s[1..] == s;
    }
  }

  /** Encoded text holds unreserved characters and percent triplets only, so no separator. */
  lemma {:induction false} EncodeClean(s: bytes)
    ensures AMPERSAND !in Encode(s, true) && EQUALS !in Encode(s, true)
  {
    if s != [] { EncodeClean(s[1..]); }
  }

  // ---------------------------------------------------------------- ordering pairs

  datatype Pair = Pair(k: bytes, v: bytes)

  predicate Before(a: Pair, b: Pair) {
    if a.k != b.k then Less(a.k, b.k) else Less(a.v, b.v)
  }

  /** By name, and by value under the same name. */
  lemma BeforeMeans(a: Pair, b: Pair)
    ensures Before(a, b) <==> Less(a.k, b.k) || (a.k == b.k && Less(a.v, b.v))
  {
    LessDiffers(a.k, b.k);
  }

  ghost predicate Sorted(ps: seq<Pair>) {
    forall i, j :: 0 <= i < j < |ps| ==> !Before(ps[j], ps[i])
  }

  lemma BeforeTotal(a: Pair, b: Pair)
    requires !Before(a, b) && !Before(b, a)
    ensures a == b
  {
    LessTotal(a.k, b.k);
    LessTotal(a.v, b.v);
  }

  lemma BeforeTrans(a: Pair, b: Pair, c: Pair)
    requires Before(a, b) && Before(b, c)
    ensures Before(a, c)
  {
    if a.k != b.k && b.k != c.k {
      LessTrans(a.k, b.k, c.k);
      LessDiffers(a.k, c.k);
    } else if a.k == b.k && b.k == c.k {
      LessTrans(a.v, b.v, c.v);
    }
  }

  lemma BeforeAsym(a: Pair, b: Pair)
    requires Before(a, b)
    ensures !Before(b, a)
  {
    if a.k != b.k { LessAsym(a.k, b.k); } else { LessAsym(a.v, b.v); }
  }

  function Insert(ps: seq<Pair>, x: Pair): seq<Pair> {
    if ps == [] then [x]
    else if Before(x, ps[0]) then [x] + ps
    else [ps[0]] + Insert(ps[1..], x)
  }

  function Sort(ps: seq<Pair>): seq<Pair> {
    if ps == [] then [] else Insert(Sort(ps[1..]), ps[0])
  }

  lemma {:induction false} InsertAdds(ps: seq<Pair>, x: Pair)
    ensures multiset(Insert(ps, x)) == multiset(ps) + multiset{x}
  {
    if ps != [] {
      assert ps == [ps[0]] + ps[1..];
      InsertAdds(ps[1..], x);
    }
  }

  lemma {:induction false} InsertSorted(ps: seq<Pair>, x: Pair)
    requires Sorted(ps)
    ensures Sorted(Insert(ps, x))
  {
    if ps != [] {
      if Before(x, ps[0]) {
        forall j | 0 <= j < |ps| ensures !Before(ps[j], x) {
          if Before(ps[j], x) { BeforeTrans(ps[j], x, ps[0]); BeforeHead(ps, j); }
        }
      } else {
        InsertSorted(ps[1..], x);
        InsertAdds(ps[1..], x);
        var rest := Insert(ps[1..], x);
        forall j | 0 <= j < |rest| ensures !Before(rest[j], ps[0]) {
          assert rest[j] in multiset(rest);
          assert rest[j] == x || rest[j] in ps[1..];
        }
      }
    }
  }

  lemma BeforeHead(ps: seq<Pair>, j: nat)
    requires Sorted(ps) && j < |ps|
    ensures !Before(ps[j], ps[0])
  {
    if Before(ps[0], ps[0]) { BeforeAsym(ps[0], ps[0]); }
  }

  lemma {:induction false} SortSorts(ps: seq<Pair>)
    ensures Sorted(Sort(ps)) && multiset(Sort(ps)) == multiset(ps)
  {
    if ps != [] {
      SortSorts(ps[1..]);
      InsertSorted(Sort(ps[1..]), ps[0]);
      InsertAdds(Sort(ps[1..]), ps[0]);
      assert ps == [ps[0]] + ps[1..];
    }
  }

  lemma HeadsEqual(ps: seq<Pair>, qs: seq<Pair>)
    requires Sorted(ps) && Sorted(qs) && ps != [] && qs != [] && ps[0] in qs && qs[0] in ps
    ensures ps[0] == qs[0]
  {
    var i :| 0 <= i < |qs| && qs[i] == ps[0];
    var j :| 0 <= j < |ps| && ps[j] == qs[0];
    BeforeHead(qs, i);
    BeforeHead(ps, j);
    BeforeTotal(ps[0], qs[0]);
  }

  lemma TailCounts(ps: seq<Pair>)
    requires ps != []
    ensures multiset(ps[1..]) == multiset(ps) - multiset{ps[0]}
  {
    assert ps == [ps[0]] + ps[1..];
  }

  /** Whatever sorting algorithm is used, there is one sorted arrangement. */
  lemma {:induction false} SortedUnique(ps: seq<Pair>, qs: seq<Pair>)
    requires Sorted(ps) && Sorted(qs) && multiset(ps) == multiset(qs)
    ensures ps == qs
  {
    assert |ps| == |multiset(ps)| == |multiset(qs)| == |qs|;
    if ps != [] {
      assert ps[0] in multiset(qs) && qs[0] in multiset(ps);
      HeadsEqual(ps, qs);
      TailCounts(ps);
      TailCounts(qs);
      SortedUnique(ps[1..], qs[1..]);
    }
  }

  // ---------------------------------------------------------------- joining pairs

  function Item(p: Pair): bytes {
    p.k + [EQUALS] + p.v
  }

  function Join(ps: seq<Pair>): bytes {
    if ps == [] then []
    else if |ps| == 1 then Item(ps[0])
    else Join(ps[..|ps| - 1]) + [AMPERSAND] + Item(ps[|ps| - 1])
  }

  /** Name, equals sign and value of each pair, with an ampersand between pairs. */
  lemma JoinMeans(ps: seq<Pair>, p: Pair)
    ensures Join([]) == [] && Join([p]) == p.k + ['=' as int] + p.v
    ensures ps != [] ==> Join(ps + [p]) == Join(ps) + ['&' as int] + p.k + ['=' as int] + p.v
  {
    assert (ps + [p])[..|ps|] == ps;
  }

  ghost predicate Clean(p: Pair) {
    AMPERSAND !in p.k && EQUALS !in p.k && AMPERSAND !in p.v && EQUALS !in p.v
  }

  ghost predicate AllClean(ps: seq<Pair>) {
    forall i :: 0 <= i < |ps| ==> Clean(ps[i])
  }

  /** Text splits at its last separator in one way. */
  lemma SplitOnce(a: bytes, b: bytes, x: bytes, y: bytes, c: byte)
    requires a + [c] + x == b + [c] + y && c !in x && c !in y
    ensures a == b && x == y
  {
    var s, t := a + [c] + x, b + [c] + y;
    assert s[|a|] == c && t[|b|] == c;
    forall i | |a| < i < |s| ensures s[i] != c { assert s[i] == x[i - |a| - 1]; }
    forall i | |b| < i < |t| ensures t[i] != c { assert t[i] == y[i - |b| - 1]; }
    assert |a| == |b|;
    assert a == s[..|a|] && b == t[..|b|] && x == s[|a| + 1..] && y == t[|b| + 1..];
  }

  lemma ItemInjective(p: Pair, q: Pair)
    requires Clean(p) && Clean(q) && Item(p) == Item(q)
    ensures p == q
  {
    SplitOnce(p.k, q.k, p.v, q.v, EQUALS);
  }

  lemma ItemClean(p: Pair)
    requires Clean(p)
    ensures AMPERSAND !in Item(p)
  {
  }

  lemma JoinShape(ps: seq<Pair>)
    requires AllClean(ps)
    ensures |ps| == 0 <==> Join(ps) == []
    ensures |ps| >= 2 <==> AMPERSAND in Join(ps)
  {
    if |ps| == 1 {
      ItemClean(ps[0]);
    } else if |ps| >= 2 {
      assert Join(ps)[|Join(ps[..|ps| - 1])|] == AMPERSAND;
    }
  }

  lemma {:induction false} JoinInjective(ps: seq<Pair>, qs: seq<Pair>)
    requires AllClean(ps) && AllClean(qs) && Join(ps) == Join(qs)
    ensures ps == qs
    decreases |ps|
  {
    JoinShape(ps);
    JoinShape(qs);
    if |ps| == 1 {
      ItemInjective(ps[0], qs[0]);
    } else if |ps| >= 2 {
      var m, n := |ps| - 1, |qs| - 1;
      ItemClean(ps[m]);
      ItemClean(qs[n]);
      SplitOnce(Join(ps[..m]), Join(qs[..n]), Item(ps[m]), Item(qs[n]), AMPERSAND);
      ItemInjective(ps[m], qs[n]);
      JoinInjective(ps[..m], qs[..n]);
      assert ps == ps[..m] + [ps[m]] && qs == qs[..n] + [qs[n]];
    }
  }

  // ---------------------------------------------------------------- the canonical query

  type Query = map<bytes, seq<bytes>>

  /** How often the query carries the pair, leaving out the skipped name. */
  ghost function Count(values: Query, skip: bytes, p: Pair): nat {
    if p.k in values && p.k != skip then multiset(values[p.k])[p.v] else 0
  }

  function EncodePair(p: Pair): Pair {
    Pair(Encode(p.k, true), Encode(p.v, true))
  }

  function EncodeAll(raw: seq<Pair>): seq<Pair> {
    if raw == [] then [] else EncodeAll(raw[..|raw| - 1]) + [EncodePair(raw[|raw| - 1])]
  }

  lemma EncodePairInjective(p: Pair, q: Pair)
    requires EncodePair(p) == EncodePair(q)
    ensures p == q
  {
    DecodeEncode(p.k, true);
    DecodeEncode(q.k, true);
    DecodeEncode(p.v, true);
    DecodeEncode(q.v, true);
  }

  lemma {:induction false} EncodeAllClean(raw: seq<Pair>)
    ensures AllClean(EncodeAll(raw))
  {
    if raw != [] {
      EncodeAllClean(raw[..|raw| - 1]);
      EncodeClean(raw[|raw| - 1].k);
      EncodeClean(raw[|raw| - 1].v);
    }
  }

  lemma CountBoth(ps: seq<Pair>, last: Pair, p: Pair, qs: seq<Pair>, last': Pair, q: Pair)
    requires multiset(ps)[p] == multiset(qs)[q] && (last == p <==> last' == q)
    ensures multiset(ps + [last])[p] == multiset(qs + [last'])[q]
  {
  }

  lemma EncodeAllCounts(raw: seq<Pair>, p: Pair)
    ensures multiset(EncodeAll(raw))[EncodePair(p)] == multiset(raw)[p]
  {
    EncodeAllMaps(raw);
    forall x | x in raw && EncodePair(x) == EncodePair(p) ensures x == p { EncodePairInjective(x, p); }
    ImageCounts(raw, EncodeAll(raw), EncodePair, p);
  }

  lemma {:induction false} EncodeAllMaps(raw: seq<Pair>)
    ensures |EncodeAll(raw)| == |raw|
    ensures forall i :: 0 <= i < |raw| ==> EncodeAll(raw)[i] == EncodePair(raw[i])
  {
    if raw != [] { EncodeAllMaps(raw[..|raw| - 1]); }
  }

  /** A map that gives p's image to p alone keeps its count. */
  lemma {:induction false} ImageCounts(ps: seq<Pair>, qs: seq<Pair>, f: Pair -> Pair, p: Pair)
    requires |qs| == |ps| && forall i :: 0 <= i < |ps| ==> qs[i] == f(ps[i])
    requires forall x :: x in ps && f(x) == f(p) ==> x == p
    ensures multiset(qs)[f(p)] == multiset(ps)[p]
    decreases |ps|
  {
    if ps != [] {
      var n := |ps| - 1;
      ImageCounts(ps[..n], qs[..n], f, p);
      assert ps[n] in ps;
      CountBoth(ps[..n], ps[n], p, qs[..n], qs[n], f(p));
      assert ps == ps[..n] + [ps[n]] && qs == qs[..n] + [qs[n]];
    }
  }

  lemma {:induction false} EncodeAllImage(raw: seq<Pair>, x: Pair) returns (p: Pair)
    requires x in EncodeAll(raw)
    ensures x == EncodePair(p)
  {
    p := raw[|raw| - 1];
    if x != EncodePair(p) { p := EncodeAllImage(raw[..|raw| - 1], x); }
  }

  /** `raw` lists every unskipped pair as often as the query carries it. */
  ghost predicate Lists(values: Query, skip: bytes, raw: seq<Pair>) {
    forall p :: multiset(raw)[p] == Count(values, skip, p)
  }

  /** `r` is some sorted arrangement of the encoded pairs, joined. */
  ghost predicate Canonical(values: Query, skip: bytes, r: bytes) {
    exists raw, ps :: CanonicalFrom(values, skip, raw, ps) && r == Join(ps)
  }

  ghost predicate CanonicalFrom(values: Query, skip: bytes, raw: seq<Pair>, ps: seq<Pair>) {
    Lists(values, skip, raw) && Sorted(ps) && multiset(ps) == multiset(EncodeAll(raw))
  }

  lemma CanonicalClean(values: Query, skip: bytes, raw: seq<Pair>, ps: seq<Pair>)
    requires CanonicalFrom(values, skip, raw, ps)
    ensures AllClean(ps)
  {
    EncodeAllClean(raw);
    forall i | 0 <= i < |ps| ensures Clean(ps[i]) {
      assert ps[i] in multiset(ps);
      assert ps[i] in EncodeAll(raw);
    }
  }

  lemma SameEncoded(raw: seq<Pair>, raw': seq<Pair>)
    requires forall p :: multiset(raw)[p] == multiset(raw')[p]
    ensures multiset(EncodeAll(raw)) == multiset(EncodeAll(raw'))
  {
    forall x ensures multiset(EncodeAll(raw))[x] == multiset(EncodeAll(raw'))[x] {
      if x in EncodeAll(raw) {
        var p := EncodeAllImage(raw, x);
        EncodeAllCounts(raw, p);
        EncodeAllCounts(raw', p);
      } else if x in EncodeAll(raw') {
        var p := EncodeAllImage(raw', x);
        EncodeAllCounts(raw, p);
        EncodeAllCounts(raw', p);
      }
    }
  }

  /** The values of a name, unless it is skipped. */
  ghost function Under(q: Query, skip: bytes, k: bytes): multiset<bytes> {
    if k in q && k != skip then multiset(q[k]) else multiset{}
  }

  /** Under every name but the skipped ones, the queries have the same values equally often. */
  ghost predicate SameQuery(a: Query, skipA: bytes, b: Query, skipB: bytes) {
    forall k :: Under(a, skipA, k) == Under(b, skipB, k)
  }

  lemma SameUnder(a: Query, skipA: bytes, b: Query, skipB: bytes, k: bytes)
    requires forall v :: Count(a, skipA, Pair(k, v)) == Count(b, skipB, Pair(k, v))
    ensures Under(a, skipA, k) == Under(b, skipB, k)
  {
    var m, n := Under(a, skipA, k), Under(b, skipB, k);
    forall v: bytes ensures m[v] == n[v] {
      assert Count(a, skipA, Pair(k, v)) == m[v] && Count(b, skipB, Pair(k, v)) == n[v];
    }
  }

  lemma SameCounts(a: Query, skipA: bytes, b: Query, skipB: bytes)
    ensures SameQuery(a, skipA, b, skipB) <==> forall p :: Count(a, skipA, p) == Count(b, skipB, p)
  {
    if forall p :: Count(a, skipA, p) == Count(b, skipB, p) {
      forall k ensures Under(a, skipA, k) == Under(b, skipB, k) { SameUnder(a, skipA, b, skipB, k); }
    }
    if SameQuery(a, skipA, b, skipB) {
      forall p ensures Count(a, skipA, p) == Count(b, skipB, p) {
        assert Under(a, skipA, p.k)[p.v] == Under(b, skipB, p.k)[p.v];
      }
    }
  }

  /** Two queries have the same canonical string exactly when they are the same but for order and skipped names. */
  lemma CanonicalIff(a: Query, skipA: bytes, r: bytes, b: Query, skipB: bytes, s: bytes)
    requires Canonical(a, skipA, r) && Canonical(b, skipB, s)
    ensures r == s <==> SameQuery(a, skipA, b, skipB)
  {
    SameCounts(a, skipA, b, skipB);
    var raw, ps :| CanonicalFrom(a, skipA, raw, ps) && r == Join(ps);
    var raw', qs :| CanonicalFrom(b, skipB, raw', qs) && s == Join(qs);
    if r == s {
      CanonicalClean(a, skipA, raw, ps);
      CanonicalClean(b, skipB, raw', qs);
      JoinInjective(ps, qs);
      forall p ensures Count(a, skipA, p) == Count(b, skipB, p) {
        EncodeAllCounts(raw, p);
        EncodeAllCounts(raw', p);
      }
    }
    if forall p :: Count(a, skipA, p) == Count(b, skipB, p) {
      SameEncoded(raw, raw');
      SortedUnique(ps, qs);
    }
  }

  /** `raw'` is `raw` and each of the values under that name. */
  ghost predicate Grown(raw: seq<Pair>, raw': seq<Pair>, key: bytes, vals: seq<bytes>) {
    forall p: Pair :: multiset(raw')[p] == multiset(raw)[p] + if p.k == key then multiset(vals)[p.v] else 0
  }

  function Paired(key: bytes, vals: seq<bytes>): seq<Pair> {
    if vals == [] then [] else Paired(key, vals[..|vals| - 1]) + [Pair(key, vals[|vals| - 1])]
  }

  lemma {:induction false} PairedCounts(key: bytes, vals: seq<bytes>, p: Pair)
    ensures multiset(Paired(key, vals))[p] == if p.k == key then multiset(vals)[p.v] else 0
  {
    if vals != [] {
      PairedCounts(key, vals[..|vals| - 1], p);
      assert vals == vals[..|vals| - 1] + [vals[|vals| - 1]];
    }
  }

  lemma PairedGrows(raw: seq<Pair>, key: bytes, vals: seq<bytes>)
    ensures Grown(raw, raw + Paired(key, vals), key, vals)
  {
    forall p: Pair
      ensures multiset(raw + Paired(key, vals))[p] == multiset(raw)[p] + if p.k == key then multiset(vals)[p.v] else 0 {
      PairedCounts(key, vals, p);
    }
  }

  lemma EncodeOneMore(raw: seq<Pair>, p: Pair)
    ensures EncodeAll(raw + [p]) == EncodeAll(raw) + [EncodePair(p)]
  {
    assert (raw + [p])[..|raw|] == raw;
  }

  /** Appends one name with each of its values, encoded. */
  method AppendValues(pairs: seq<Pair>, ghost raw: seq<Pair>, key: bytes, vals: seq<bytes>)
    returns (pairs': seq<Pair>, ghost raw': seq<Pair>)
    requires pairs == EncodeAll(raw)
    ensures pairs' == EncodeAll(raw') && Grown(raw, raw', key, vals)
  {
    pairs', raw' := pairs, raw;
    var ek := AwsURIEncode(key, true);
    for i := 0 to |vals|
      invariant pairs' == EncodeAll(raw') && raw' == raw + Paired(key, vals[..i])
    {
      var ev := AwsURIEncode(vals[i], true);
      assert vals[..i + 1][..i] == vals[..i];
      EncodeOneMore(raw', Pair(key, vals[i]));
      pairs' := pairs' + [Pair(ek, ev)];
      raw' := raw' + [Pair(key, vals[i])];
    }
    assert vals[..|vals|] == vals;
    PairedGrows(raw, key, vals);
  }

  method WritePairs(ps: seq<Pair>) returns (r: bytes)
    ensures r == Join(ps)
  {
    r := [];
    for i := 0 to |ps|
      invariant r == Join(ps[..i])
    {
      assert ps[..i + 1][..i] == ps[..i];
      if i > 0 {
        r := r + [AMPERSAND];
      }
      r := r + ps[i].k + [EQUALS] + ps[i].v;
      assert i > 0 ==> r == Join(ps[..i]) + [AMPERSAND] + Item(ps[i]);
    }
    assert ps[..|ps|] == ps;
  }

  /** Visits the names in whatever order the map yields them. */
  method BuildCanonicalQuery(values: Query, skip: bytes) returns (r: bytes)
    ensures Canonical(values, skip, r)
  {
    var pairs: seq<Pair> := [];
    ghost var raw: seq<Pair> := [];
    var todo := values.Keys;
    while todo != {}
      invariant todo <= values.Keys && pairs == EncodeAll(raw)
      invariant forall p: Pair :: multiset(raw)[p] == if p.k in todo then 0 else Count(values, skip, p)
      decreases |todo|
    {
      var key :| key in todo;
      todo := todo - {key};
      if key == skip {
        continue;
      }
      pairs, raw := AppendValues(pairs, raw, key, values[key]);
    }
    var sorted := Sort(pairs);
    SortSorts(pairs);
    r := WritePairs(sorted);
    assert CanonicalFrom(values, skip, raw, sorted);
  }
}
