/** Delimiter roll-up and pagination over keys streamed in byte order. */
module Listing {
  import opened Bytes
  import opened ByteOrder

  datatype Params = Params(prefix: bytes, delimiter: bytes, after: bytes, maxKeys: int)

  datatype Page = Page(objects: seq<bytes>, prefixes: seq<bytes>, truncated: bool, nextAfter: bytes)

  /** What a key contributes to a listing: itself, or the common prefix it rolls up into. */
  datatype Entry = Object(name: bytes) | Common(name: bytes)

  function Limit(maxKeys: int): nat {
    if maxKeys <= 0 || maxKeys > 1000 then 1000 else maxKeys
  }

  /** The index of the first occurrence, -1 if there is none. */
  function Index(s: bytes, d: bytes): int {
    if |s| < |d| then -1
    else if s[..|d|] == d then 0
    else if s == [] then -1
    else
      var i := Index(s[1..], d);
      if i < 0 then -1 else i + 1
  }

  function Result(p: Params, k: bytes): Entry {
    if p.delimiter == [] || !StartsWith(k, p.prefix) || Index(k[|p.prefix|..], p.delimiter) < 0 then Object(k)
    else Common(k[..Min(|k|, |p.prefix| + Index(k[|p.prefix|..], p.delimiter) + |p.delimiter|)])
  }

  /** The keys a listing ranges over: those with the prefix, strictly after the marker. */
  predicate Matches(p: Params, k: bytes) {
    StartsWith(k, p.prefix) && (p.after == [] || Less(p.after, k))
  }

  // ---------------------------------------------------------------- the set-level specification

  ghost predicate Selected(table: seq<bytes>, p: Params, k: bytes) {
    k in table && Matches(p, k)
  }

  ghost predicate Shown(page: Page, e: Entry) {
    match e
    case Object(k) => k in page.objects
    case Common(c) => c in page.prefixes
  }

  /** Some selected key contributes `e`. */
  ghost predicate Listed(table: seq<bytes>, p: Params, e: Entry) {
    exists k :: Selected(table, p, k) && Result(p, k) == e
  }

  /** Every result of a key up to `nextAfter` is on the page and no result of a later one is. */
  ghost predicate PageOf(table: seq<bytes>, p: Params, page: Page) {
    && Ascending(page.objects) && Ascending(page.prefixes)
    && |page.objects| + |page.prefixes| <= Limit(p.maxKeys)
    && (forall e :: Shown(page, e) ==> Listed(table, p, e))
    && (forall k :: Selected(table, p, k) ==>
          (Shown(page, Result(p, k)) <==> !page.truncated || !Less(page.nextAfter, k)))
    && (!page.truncated ==> page.nextAfter == [])
    && (page.truncated ==>
          && |page.objects| + |page.prefixes| == Limit(p.maxKeys)
          && Selected(table, p, page.nextAfter)
          && exists k :: Selected(table, p, k) && Less(page.nextAfter, k))
  }

  // ---------------------------------------------------------------- first occurrences

  ghost predicate At(s: bytes, d: bytes, i: int) {
    0 <= i && i + |d| <= |s| && s[i..i + |d|] == d
  }

  lemma AtTail(s: bytes, d: bytes, i: int)
    requires s != [] && i > 0
    ensures At(s, d, i) <==> At(s[1..], d, i - 1)
  {
    if i + |d| <= |s| { assert s[i..i + |d|] == s[1..][i - 1..i - 1 + |d|]; }
  }

  lemma {:induction false} IndexIsFirst(s: bytes, d: bytes)
    ensures Index(s, d) >= 0 ==> At(s, d, Index(s, d))
    ensures forall i :: At(s, d, i) ==> 0 <= Index(s, d) <= i
  {
    if |s| >= |d| && s[..|d|] != d && s != [] {
      IndexIsFirst(s[1..], d);
      var n := Index(s[1..], d);
      if n >= 0 { AtTail(s, d, n + 1); }
      forall i | At(s, d, i) ensures 0 <= Index(s, d) <= i {
        AtTail(s, d, Max(i, 1));
      }
    }
  }

  lemma AtWithin(s: bytes, t: bytes, d: bytes, n: nat, i: int)
    requires n <= |s| && n <= |t| && s[..n] == t[..n] && i + |d| <= n
    ensures At(s, d, i) <==> At(t, d, i)
  {
    if 0 <= i { assert s[i..i + |d|] == s[..n][i..i + |d|] && t[i..i + |d|] == t[..n][i..i + |d|]; }
  }

  /** Text that agrees up to the end of the first occurrence has it in the same place. */
  lemma IndexWithin(s: bytes, t: bytes, d: bytes)
    requires Index(s, d) >= 0
    requires Index(s, d) + |d| <= |s| && StartsWith(t, s[..Index(s, d) + |d|])
    ensures Index(t, d) == Index(s, d)
  {
    var i, j := Index(s, d), Index(t, d);
    IndexIsFirst(s, d);
    IndexIsFirst(t, d);
    AtWithin(s, t, d, i + |d|, i);
    AtWithin(s, t, d, i + |d|, j);
  }

  // ---------------------------------------------------------------- the roll-up, said outright

  /** The key is stored, has the prefix, and lies after the marker. */
  ghost predicate AskedFor(table: seq<bytes>, p: Params, k: bytes) {
    && k in table && |p.prefix| <= |k| && k[..|p.prefix|] == p.prefix
    && (p.after != [] ==> Less(p.after, k))
  }

  /** The delimiter occurs somewhere behind the prefix. */
  ghost predicate Rolls(p: Params, k: bytes) {
    p.delimiter != [] && |p.prefix| <= |k| && exists i :: At(k[|p.prefix|..], p.delimiter, i)
  }

  /** The key up to the end of the first delimiter behind the prefix is c. */
  ghost predicate RollsInto(p: Params, k: bytes, c: bytes) {
    && p.delimiter != [] && |p.prefix| <= |k|
    && exists i ::
         && At(k[|p.prefix|..], p.delimiter, i) && (forall j :: j < i ==> !At(k[|p.prefix|..], p.delimiter, j))
         && c == k[..|p.prefix| + i + |p.delimiter|]
  }

  /** A key contributes itself iff it does not roll up, and otherwise what it rolls up into. */
  lemma ResultMeans(p: Params, k: bytes)
    requires StartsWith(k, p.prefix)
    ensures Result(p, k).Common? <==> Rolls(p, k)
    ensures Result(p, k).Object? ==> Result(p, k) == Object(k)
    ensures forall c :: RollsInto(p, k, c) <==> Result(p, k) == Common(c)
  {
    var rel, d := k[|p.prefix|..], p.delimiter;
    if d != [] {
      IndexIsFirst(rel, d);
      var n := Index(rel, d);
      if n >= 0 {
        assert At(rel, d, n) && forall j :: j < n ==> !At(rel, d, j);
        assert RollsInto(p, k, Result(p, k).name);
        forall c | RollsInto(p, k, c) ensures Result(p, k) == Common(c) {
          var i :| At(rel, d, i) && (forall j :: j < i ==> !At(rel, d, j)) && c == k[..|p.prefix| + i + |d|];
          assert i == n;
        }
      }
    }
  }

  /**
   What a page may show, without reference to how a key is rolled up: only what the listing holds, as much as fits.
   */
  ghost predicate PageFits(table: seq<bytes>, p: Params, page: Page) {
    && (forall k :: k in page.objects ==> AskedFor(table, p, k) && !Rolls(p, k))
    && (forall c :: c in page.prefixes ==> exists k :: AskedFor(table, p, k) && RollsInto(p, k, c))
    && (1 <= p.maxKeys <= 1000 ==> |page.objects| + |page.prefixes| <= p.maxKeys)
    && (!(1 <= p.maxKeys <= 1000) ==> |page.objects| + |page.prefixes| <= 1000)
    && (page.truncated ==> |page.objects| + |page.prefixes| == if 1 <= p.maxKeys <= 1000 then p.maxKeys else 1000)
  }

  lemma PageFitsWell(table: seq<bytes>, p: Params, page: Page)
    requires PageOf(table, p, page)
    ensures PageFits(table, p, page)
  {
    forall k | k in page.objects ensures AskedFor(table, p, k) && !Rolls(p, k) {
      assert Shown(page, Object(k));
      var m :| Selected(table, p, m) && Result(p, m) == Object(k);
      ResultMeans(p, m);
    }
    forall c | c in page.prefixes ensures exists k :: AskedFor(table, p, k) && RollsInto(p, k, c) {
      assert Shown(page, Common(c));
      var m :| Selected(table, p, m) && Result(p, m) == Common(c);
      ResultMeans(p, m);
      assert AskedFor(table, p, m) && RollsInto(p, m, c);
    }
  }

  // ---------------------------------------------------------------- common prefixes

  /** A common prefix is a prefix of the key, and every key that starts with it rolls up into it. */
  lemma CommonIsPrefix(p: Params, k: bytes)
    requires Result(p, k).Common?
    ensures StartsWith(k, Result(p, k).name)
    ensures StartsWith(Result(p, k).name, p.prefix)
  {
    IndexIsFirst(k[|p.prefix|..], p.delimiter);
  }

  lemma RollsUp(p: Params, k: bytes, m: bytes)
    requires Result(p, k).Common? && StartsWith(m, Result(p, k).name)
    ensures Result(p, m) == Result(p, k)
  {
    var n, c := |p.prefix|, Result(p, k).name;
    var s, t := k[n..], m[n..];
    IndexIsFirst(s, p.delimiter);
    CommonIsPrefix(p, k);
    assert m[..n] == c[..n];
    assert s[..|c| - n] == c[n..] && t[..|c| - n] == c[n..];
    IndexWithin(s, t, p.delimiter);
  }

  /** No common prefix starts another. */
  lemma CommonsIncomparable(p: Params, k: bytes, m: bytes)
    requires Result(p, k).Common? && Result(p, m).Common? && Result(p, k) != Result(p, m)
    ensures !StartsWith(Result(p, m).name, Result(p, k).name)
  {
    var c, d := Result(p, k).name, Result(p, m).name;
    CommonIsPrefix(p, m);
    if StartsWith(d, c) {
      assert m[..|c|] == m[..|d|][..|c|];
      RollsUp(p, k, m);
    }
  }

  lemma CommonsOrdered(p: Params, k: bytes, m: bytes)
    requires Result(p, k).Common? && Result(p, m).Common? && Result(p, k) != Result(p, m) && Less(k, m)
    ensures Less(Result(p, k).name, Result(p, m).name)
  {
    CommonsIncomparable(p, k, m);
    CommonsIncomparable(p, m, k);
    CommonIsPrefix(p, k);
    CommonIsPrefix(p, m);
    PrefixesOrdered(Result(p, k).name, Result(p, m).name, k, m);
  }

  /** A result that two keys share is the result of every key between them. */
  lemma ResultsContiguous(p: Params, a: bytes, b: bytes, c: bytes)
    requires Less(a, b) && Less(b, c) && Result(p, a) == Result(p, c)
    ensures Result(p, b) == Result(p, a)
  {
    LessTrans(a, b, c);
    LessAsym(a, c);
    LessAsym(a, b);
    LessAsym(b, c);
    CommonIsPrefix(p, a);
    CommonIsPrefix(p, c);
    Contiguous(Result(p, a).name, a, b, c);
    RollsUp(p, a, b);
  }

  // ---------------------------------------------------------------- the scan

  function Rows(table: seq<bytes>, p: Params): seq<bytes> {
    if table == [] then []
    else
      var rows := Rows(table[..|table| - 1], p);
      if Matches(p, table[|table| - 1]) then rows + [table[|table| - 1]] else rows
  }

  lemma {:induction false} RowsSelected(table: seq<bytes>, p: Params)
    ensures forall k :: k in Rows(table, p) <==> Selected(table, p, k)
  {
    if table != [] {
      RowsSelected(table[..|table| - 1], p);
      assert table == table[..|table| - 1] + [table[|table| - 1]];
    }
  }

  lemma {:induction false} RowsAscending(table: seq<bytes>, p: Params)
    requires Ascending(table)
    ensures Ascending(Rows(table, p))
  {
    if table != [] {
      var init := table[..|table| - 1];
      RowsAscending(init, p);
      RowsSelected(init, p);
      forall k | k in Rows(init, p) ensures Less(k, table[|table| - 1]) {
        assert Selected(init, p, k);
      }
      if Matches(p, table[|table| - 1]) { AppendAscending(Rows(init, p), table[|table| - 1]); }
    }
  }

  lemma AppendAscending(s: seq<bytes>, x: bytes)
    requires Ascending(s) && forall k :: k in s ==> Less(k, x)
    ensures Ascending(s + [x])
  {
  }

  /** The query: rows in key order, the prefix as a half-open range. */
  method Scan(table: seq<bytes>, p: Params) returns (rows: seq<bytes>)
    ensures rows == Rows(table, p)
  {
    var hi := PrefixUpperBound(p.prefix);
    rows := [];
    for n := 0 to |table|
      invariant rows == Rows(table[..n], p)
    {
      var k := table[n];
      assert table[..n + 1][..n] == table[..n];
      if (p.after == [] || Less(p.after, k)) && (p.prefix == [] || (!Less(k, p.prefix) && (hi == [] || Less(k, hi)))) {
        rows := rows + [k];
      }
    }
    assert table[..|table|] == table;
  }

  // ---------------------------------------------------------------- one page

  /** The page shows exactly the results of the rows read. */
  ghost predicate Shows(p: Params, read: seq<bytes>, page: Page) {
    forall e :: Shown(page, e) <==> Yields(p, read, e)
  }

  ghost predicate Yields(p: Params, read: seq<bytes>, e: Entry) {
    exists j :: 0 <= j < |read| && Result(p, read[j]) == e
  }

  lemma YieldsMore(p: Params, read: seq<bytes>, k: bytes, e: Entry)
    ensures Yields(p, read + [k], e) <==> Yields(p, read, e) || e == Result(p, k)
  {
    var now := read + [k];
    if Yields(p, read, e) {
      var j :| 0 <= j < |read| && Result(p, read[j]) == e;
      assert Result(p, now[j]) == e;
    }
    assert now[|read|] == k;
  }

  ghost predicate Ordered(page: Page) {
    Ascending(page.objects) && Ascending(page.prefixes)
  }

  lemma AddObject(p: Params, read: seq<bytes>, page: Page, k: bytes)
    requires Ascending(read + [k]) && Ordered(page) && Shows(p, read, page) && Result(p, k) == Object(k)
    ensures var now := page.(objects := page.objects + [k], nextAfter := k);
            Ordered(now) && Shows(p, read + [k], now)
  {
    var now := page.(objects := page.objects + [k], nextAfter := k);
    forall e ensures Shown(now, e) <==> Yields(p, read + [k], e) {
      YieldsMore(p, read, k, e);
    }
    forall o | o in page.objects ensures Less(o, k) {
      assert Shown(page, Object(o));
      var j :| 0 <= j < |read| && Result(p, read[j]) == Object(o);
      assert (read + [k])[j] == o && (read + [k])[|read|] == k;
    }
  }

  lemma AddPrefix(p: Params, read: seq<bytes>, page: Page, k: bytes, c: bytes)
    requires Ascending(read + [k]) && Ordered(page) && Shows(p, read, page) && Result(p, k) == Common(c)
    requires c !in page.prefixes
    ensures var now := page.(prefixes := page.prefixes + [c], nextAfter := k);
            Ordered(now) && Shows(p, read + [k], now)
  {
    var now := page.(prefixes := page.prefixes + [c], nextAfter := k);
    forall e ensures Shown(now, e) <==> Yields(p, read + [k], e) {
      YieldsMore(p, read, k, e);
    }
    forall d | d in page.prefixes ensures Less(d, c) {
      assert Shown(page, Common(d));
      var j :| 0 <= j < |read| && Result(p, read[j]) == Common(d);
      assert (read + [k])[j] == read[j] && (read + [k])[|read|] == k;
      CommonsOrdered(p, read[j], k);
    }
  }

  lemma SkipSeen(p: Params, read: seq<bytes>, page: Page, k: bytes, c: bytes)
    requires Shows(p, read, page) && Result(p, k) == Common(c) && c in page.prefixes
    ensures Shows(p, read + [k], page.(nextAfter := k))
  {
    var now := page.(nextAfter := k);
    forall e ensures Shown(now, e) <==> Yields(p, read + [k], e) {
      YieldsMore(p, read, k, e);
      assert Shown(now, e) == Shown(page, e);
      assert Shown(page, Common(c));
    }
  }

  /** When the result of row n is new, no later row repeats a result already shown. */
  lemma NothingRepeats(p: Params, rows: seq<bytes>, n: nat, page: Page, m: nat)
    requires Ascending(rows) && n <= m < |rows| && Shows(p, rows[..n], page) && !Shown(page, Result(p, rows[n]))
    ensures !Shown(page, Result(p, rows[m]))
  {
    if Shown(page, Result(p, rows[m])) {
      var j :| 0 <= j < n && Result(p, rows[..n][j]) == Result(p, rows[m]);
      assert rows[..n][j] == rows[j];
      if n < m { ResultsContiguous(p, rows[j], rows[n], rows[m]); }
    }
  }

  lemma PageEnds(table: seq<bytes>, p: Params, page: Page)
    requires Shows(p, Rows(table, p), page) && Ordered(page)
    requires |page.objects| + |page.prefixes| <= Limit(p.maxKeys)
    ensures PageOf(table, p, page.(truncated := false, nextAfter := []))
  {
    var rows, now := Rows(table, p), page.(truncated := false, nextAfter := []);
    RowsSelected(table, p);
    forall e | Shown(now, e) ensures Listed(table, p, e) {
      assert Shown(page, e);
      var j :| 0 <= j < |rows| && Result(p, rows[j]) == e;
      assert Selected(table, p, rows[j]);
    }
    forall k | Selected(table, p, k) ensures Shown(now, Result(p, k)) {
      var j :| 0 <= j < |rows| && rows[j] == k;
      assert Yields(p, rows, Result(p, k));
      assert Shown(page, Result(p, k));
    }
  }

  lemma PageCut(table: seq<bytes>, p: Params, page: Page, n: nat)
    requires Ascending(table) && 0 < n < |Rows(table, p)| && page.nextAfter == Rows(table, p)[n - 1]
    requires Shows(p, Rows(table, p)[..n], page) && Ordered(page) && !Shown(page, Result(p, Rows(table, p)[n]))
    requires |page.objects| + |page.prefixes| == Limit(p.maxKeys)
    ensures PageOf(table, p, page.(truncated := true))
  {
    var rows, now := Rows(table, p), page.(truncated := true);
    RowsSelected(table, p);
    RowsAscending(table, p);
    assert forall e :: Shown(now, e) == Shown(page, e);
    forall e | Shown(now, e) ensures Listed(table, p, e) {
      var j :| 0 <= j < n && Result(p, rows[..n][j]) == e;
      assert Selected(table, p, rows[j]);
    }
    forall k | Selected(table, p, k) ensures Shown(now, Result(p, k)) <==> !Less(now.nextAfter, k) {
      var m :| 0 <= m < |rows| && rows[m] == k;
      CutAt(p, rows, n, page, m);
    }
    assert Selected(table, p, rows[n]) && Less(now.nextAfter, rows[n]);
    assert Selected(table, p, rows[n - 1]);
  }

  lemma CutAt(p: Params, rows: seq<bytes>, n: nat, page: Page, m: nat)
    requires Ascending(rows) && 0 < n < |rows| && m < |rows|
    requires Shows(p, rows[..n], page) && !Shown(page, Result(p, rows[n]))
    ensures Shown(page, Result(p, rows[m])) <==> !Less(rows[n - 1], rows[m])
  {
    if m < n {
      assert rows[..n][m] == rows[m];
      assert Yields(p, rows[..n], Result(p, rows[m]));
      LessIrreflexive(rows[n - 1]);
      if m < n - 1 { LessAsym(rows[m], rows[n - 1]); }
    } else {
      NothingRepeats(p, rows, n, page, m);
    }
  }

  /** Streams the rows and stops at the first new result that does not fit on the page. */
  method ListObjectsPage(table: seq<bytes>, p: Params) returns (page: Page)
    requires Ascending(table)
    ensures PageOf(table, p, page) && PageFits(table, p, page)
  {
    page := StreamPage(table, p);
    PageFitsWell(table, p, page);
  }

  method StreamPage(table: seq<bytes>, p: Params) returns (page: Page)
    requires Ascending(table)
    ensures PageOf(table, p, page)
  {
    var maxKeys := if p.maxKeys <= 0 || p.maxKeys > 1000 then 1000 else p.maxKeys;
    var rows := Scan(table, p);
    RowsAscending(table, p);
    RowsSelected(table, p);
    page := Page([], [], false, []);
    var seen: set<bytes> := {};
    var count := 0;
    for n := 0 to |rows|
      invariant forall c :: c in seen <==> c in page.prefixes
      invariant count == |page.objects| + |page.prefixes| <= maxKeys
      invariant !page.truncated && Ordered(page) && Shows(p, rows[..n], page)
      invariant n == 0 ==> count == 0
      invariant n > 0 ==> page.nextAfter == rows[n - 1]
    {
      var k := rows[n];
      assert rows[..n + 1] == rows[..n] + [k] && Selected(table, p, k);
      var rel := k[|p.prefix|..];
      var idx := if p.delimiter == [] then -1 else Index(rel, p.delimiter);
      if idx >= 0 {
        IndexIsFirst(rel, p.delimiter);
        var cp := p.prefix + rel[..idx + |p.delimiter|];
        assert Result(p, k) == Common(cp);
        if cp in seen {
          SkipSeen(p, rows[..n], page, k, cp);
          page := page.(nextAfter := k);
          continue;
        }
        if count == maxKeys {
          PageCut(table, p, page, n);
          page := page.(truncated := true);
          return;
        }
        AddPrefix(p, rows[..n], page, k, cp);
        seen := seen + {cp};
        page := page.(prefixes := page.prefixes + [cp], nextAfter := k);
        count := count + 1;
        continue;
      }
      if count == maxKeys {
        NewObject(p, rows, n, page);
        PageCut(table, p, page, n);
        page := page.(truncated := true);
        return;
      }
      AddObject(p, rows[..n], page, k);
      page := page.(objects := page.objects + [k], nextAfter := k);
      count := count + 1;
    }
    assert rows[..|rows|] == rows;
    PageEnds(table, p, page);
    page := page.(truncated := false, nextAfter := []);
  }

  lemma NewObject(p: Params, rows: seq<bytes>, n: nat, page: Page)
    requires Ascending(rows) && n < |rows| && Shows(p, rows[..n], page) && Result(p, rows[n]).Object?
    ensures !Shown(page, Result(p, rows[n]))
  {
    if Yields(p, rows[..n], Result(p, rows[n])) {
      var j :| 0 <= j < n && Result(p, rows[..n][j]) == Result(p, rows[n]);
      assert rows[..n][j] == rows[j];
      LessIrreflexive(rows[n]);
      assert false;
    }
  }

  // ---------------------------------------------------------------- following the cursor

  /** The cursor fails to move only when the empty key fills a page of one. */
  lemma EmptyKeyStalls(table: seq<bytes>, p: Params, page: Page)
    requires PageOf(table, p, page) && page.truncated
    ensures page.nextAfter == [] <==> Selected(table, p, []) && Limit(p.maxKeys) == 1
  {
    assert Result(p, []) == Object([]);
    if Selected(table, p, []) && Limit(p.maxKeys) == 1 {
      assert Shown(page, Result(p, []));
      LessIrreflexive(page.nextAfter);
      assert Shown(page, Result(p, page.nextAfter));
      assert [] in page.objects && |page.objects| == 1 && page.prefixes == [];
    } else if page.nextAfter == [] {
      forall e | Shown(page, e) ensures e == Object([]) {
        var k :| Selected(table, p, k) && Result(p, k) == e;
        assert !Less([], k);
      }
      OneEntry(page);
      assert false;
    }
  }

  lemma OneEntry(page: Page)
    requires Ordered(page) && forall e :: Shown(page, e) ==> e == Object([])
    ensures |page.objects| + |page.prefixes| <= 1
  {
    assert page.prefixes == [] || page.prefixes[0] in page.prefixes;
    forall c ensures c !in page.prefixes {
      assert Shown(page, Common(c)) <==> c in page.prefixes;
    }
    forall i | 0 <= i < |page.objects| ensures page.objects[i] == [] {
      assert Shown(page, Object(page.objects[i]));
    }
    if |page.objects| > 1 {
      LessDiffers(page.objects[0], page.objects[1]);
    }
  }

  /** `all` holds exactly the results of the keys a listing from `q` would no longer return. */
  ghost predicate Collected(table: seq<bytes>, p: Params, q: Params, all: Page) {
    && q == p.(after := q.after)
    && Ordered(all)
    && (forall e :: Shown(all, e) ==> Listed(table, p, e))
    && (forall k :: Selected(table, p, k) ==> (Shown(all, Result(p, k)) <==> !Matches(q, k)))
    && (forall k :: Selected(table, q, k) ==> Selected(table, p, k))
  }

  function Joined(a: Page, b: Page): Page {
    Page(a.objects + b.objects, a.prefixes + b.prefixes, b.truncated, b.nextAfter)
  }

  lemma SameResult(p: Params, q: Params, k: bytes)
    requires q == p.(after := q.after)
    ensures Result(q, k) == Result(p, k)
  {
  }

  /** A key already collected lies before every key still to come. */
  lemma CollectedBefore(table: seq<bytes>, p: Params, q: Params, a: bytes, b: bytes)
    requires Selected(table, p, a) && q == p.(after := q.after) && !Matches(q, a) && Matches(q, b)
    ensures Less(a, b)
  {
    LessFrom(a, q.after, b);
  }

  lemma JoinOrdered(table: seq<bytes>, p: Params, q: Params, all: Page, page: Page)
    requires Collected(table, p, q, all) && PageOf(table, q, page)
    ensures Ordered(Joined(all, page))
  {
    forall a, b | a in all.objects && b in page.objects ensures Less(a, b) {
      assert Shown(all, Object(a)) && Shown(page, Object(b));
      var k :| Selected(table, p, k) && Result(p, k) == Object(a);
      var m :| Selected(table, q, m) && Result(q, m) == Object(b);
      CollectedBefore(table, p, q, a, b);
    }
    forall c, d | c in all.prefixes && d in page.prefixes ensures Less(c, d) {
      assert Shown(all, Common(c)) && Shown(page, Common(d));
      var k :| Selected(table, p, k) && Result(p, k) == Common(c);
      var m :| Selected(table, q, m) && Result(q, m) == Common(d);
      SameResult(p, q, m);
      CollectedBefore(table, p, q, k, m);
      CommonsOrdered(p, k, m);
    }
    JoinAscending(all.objects, page.objects);
    JoinAscending(all.prefixes, page.prefixes);
  }

  lemma JoinAscending(s: seq<bytes>, t: seq<bytes>)
    requires Ascending(s) && Ascending(t) && forall a, b :: a in s && b in t ==> Less(a, b)
    ensures Ascending(s + t)
  {
  }

  lemma JoinListed(table: seq<bytes>, p: Params, q: Params, all: Page, page: Page, e: Entry)
    requires Collected(table, p, q, all) && PageOf(table, q, page) && Shown(Joined(all, page), e)
    ensures Listed(table, p, e)
  {
    if !Shown(all, e) {
      assert Shown(page, e);
      var m :| Selected(table, q, m) && Result(q, m) == e;
      SameResult(p, q, m);
    }
  }

  lemma JoinShown(table: seq<bytes>, p: Params, q: Params, all: Page, page: Page, k: bytes)
    requires Collected(table, p, q, all) && PageOf(table, q, page) && Selected(table, p, k)
    requires page.truncated ==> page.nextAfter != []
    ensures Shown(Joined(all, page), Result(p, k)) <==> !page.truncated || !Less(page.nextAfter, k)
  {
    var e := Result(p, k);
    assert Shown(Joined(all, page), e) <==> Shown(all, e) || Shown(page, e);
    SameResult(p, q, k);
    if Matches(q, k) {
      assert Selected(table, q, k);
    } else if page.truncated {
      CollectedBefore(table, p, q, k, page.nextAfter);
      LessAsym(k, page.nextAfter);
    }
  }

  lemma CollectMore(table: seq<bytes>, p: Params, q: Params, all: Page, page: Page)
    requires Collected(table, p, q, all) && PageOf(table, q, page) && page.truncated && page.nextAfter != []
    ensures Collected(table, p, p.(after := page.nextAfter), Joined(all, page))
  {
    var r := p.(after := page.nextAfter);
    JoinOrdered(table, p, q, all, page);
    forall e | Shown(Joined(all, page), e) ensures Listed(table, p, e) {
      JoinListed(table, p, q, all, page, e);
    }
    forall k | Selected(table, p, k) ensures Shown(Joined(all, page), Result(p, k)) <==> !Matches(r, k) {
      JoinShown(table, p, q, all, page, k);
    }
    forall k | Selected(table, r, k) ensures Selected(table, p, k) {
      assert Selected(table, p, page.nextAfter);
      if p.after != [] { LessTrans(p.after, page.nextAfter, k); }
    }
  }

  /** A listing with no page limit: both lists ascending, exactly the roll-up of the keys asked for. */
  ghost predicate Complete(table: seq<bytes>, p: Params, objects: seq<bytes>, prefixes: seq<bytes>) {
    && Ascending(objects) && Ascending(prefixes)
    && (forall k :: k in objects <==> AskedFor(table, p, k) && !Rolls(p, k))
    && (forall c :: c in prefixes <==> exists k :: AskedFor(table, p, k) && RollsInto(p, k, c))
  }

  lemma CollectLast(table: seq<bytes>, p: Params, q: Params, all: Page, page: Page)
    requires Collected(table, p, q, all) && PageOf(table, q, page) && !page.truncated
    ensures Complete(table, p, Joined(all, page).objects, Joined(all, page).prefixes)
  {
    var now := Joined(all, page);
    JoinOrdered(table, p, q, all, page);
    forall k ensures k in now.objects <==> AskedFor(table, p, k) && !Rolls(p, k) {
      ObjectListed(table, p, q, all, page, k);
    }
    forall c ensures c in now.prefixes <==> exists k :: AskedFor(table, p, k) && RollsInto(p, k, c) {
      PrefixListed(table, p, q, all, page, c);
    }
  }

  lemma ObjectListed(table: seq<bytes>, p: Params, q: Params, all: Page, page: Page, k: bytes)
    requires Collected(table, p, q, all) && PageOf(table, q, page) && !page.truncated
    ensures k in Joined(all, page).objects <==> AskedFor(table, p, k) && !Rolls(p, k)
  {
    if k in Joined(all, page).objects {
      JoinListed(table, p, q, all, page, Object(k));
      var m :| Selected(table, p, m) && Result(p, m) == Object(k);
      ResultMeans(p, m);
    }
    if AskedFor(table, p, k) {
      assert Selected(table, p, k);
      ResultMeans(p, k);
      JoinShown(table, p, q, all, page, k);
    }
  }

  lemma PrefixListed(table: seq<bytes>, p: Params, q: Params, all: Page, page: Page, c: bytes)
    requires Collected(table, p, q, all) && PageOf(table, q, page) && !page.truncated
    ensures c in Joined(all, page).prefixes <==> exists k :: AskedFor(table, p, k) && RollsInto(p, k, c)
  {
    if c in Joined(all, page).prefixes {
      JoinListed(table, p, q, all, page, Common(c));
      var m :| Selected(table, p, m) && Result(p, m) == Common(c);
      ResultMeans(p, m);
      assert AskedFor(table, p, m) && RollsInto(p, m, c);
    }
    forall k | AskedFor(table, p, k) && RollsInto(p, k, c) ensures c in Joined(all, page).prefixes {
      assert Selected(table, p, k);
      ResultMeans(p, k);
      JoinShown(table, p, q, all, page, k);
      assert Shown(Joined(all, page), Common(c));
    }
  }

  lemma {:induction false} RowsFewer(table: seq<bytes>, p: Params, q: Params, x: bytes)
    requires forall k :: Matches(q, k) ==> Matches(p, k)
    ensures |Rows(table, q)| <= |Rows(table, p)|
    ensures x in table && Matches(p, x) && !Matches(q, x) ==> |Rows(table, q)| < |Rows(table, p)|
  {
    if table != [] {
      RowsFewer(table[..|table| - 1], p, q, x);
    }
  }

  /** The cursor of a truncated page lies strictly beyond the marker it was asked from, so fewer rows remain. */
  lemma CursorAdvances(table: seq<bytes>, p: Params, page: Page)
    requires PageOf(table, p, page) && page.truncated && page.nextAfter != []
    ensures Less(p.after, page.nextAfter)
    ensures |Rows(table, p.(after := page.nextAfter))| < |Rows(table, p)|
  {
    var q := p.(after := page.nextAfter);
    forall k | Matches(q, k) ensures Matches(p, k) {
      if p.after != [] { LessTrans(p.after, page.nextAfter, k); }
    }
    LessIrreflexive(page.nextAfter);
    RowsFewer(table, p, q, page.nextAfter);
  }

  /** Pages until a page is not truncated, from any marker. */
  method ListAll(table: seq<bytes>, p: Params) returns (objects: seq<bytes>, prefixes: seq<bytes>)
    requires Ascending(table)
    requires !(Selected(table, p, []) && Limit(p.maxKeys) == 1)
    ensures Complete(table, p, objects, prefixes)
  {
    var q, all := p, Page([], [], false, []);
    while true
      invariant Collected(table, p, q, all)
      invariant q.after == [] ==> q == p
      decreases |Rows(table, q)|
    {
      var page := ListObjectsPage(table, q);
      if !page.truncated {
        CollectLast(table, p, q, all, page);
        return all.objects + page.objects, all.prefixes + page.prefixes;
      }
      EmptyKeyStalls(table, q, page);
      CollectMore(table, p, q, all, page);
      CursorAdvances(table, q, page);
      q, all := p.(after := page.nextAfter), Joined(all, page);
    }
  }
}
