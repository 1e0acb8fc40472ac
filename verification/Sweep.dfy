/** The keep-alive sweep: a rotating window over all keys, each chunk verified, repaired and written back. */
module Sweep {
  import opened Bytes
  import opened Alignment
  import M = Metadata
  import opened MetadataRuns
  import opened Conversion
  import Storage
  import R = Repair

  // ---------------------------------------------------------------- the window

  predicate Sampling(n: nat, sample: int) {
    0 < sample < n
  }

  /** `len` keys from `start`, wrapping around. */
  function Window<K>(keys: seq<K>, start: nat, len: nat): seq<K>
    requires keys != []
  {
    if len == 0 then [] else Window(keys, start, len - 1) + [keys[(start + len - 1) % |keys|]]
  }

  function NextCursor(n: nat, sample: int, cursor: nat): nat {
    if n > 0 && Sampling(n, sample) then (cursor % n + sample) % n else cursor
  }

  /** What one tick visits. */
  function Visited<K>(keys: seq<K>, sample: int, cursor: nat): seq<K> {
    if keys != [] && Sampling(|keys|, sample) then Window(keys, cursor % |keys|, sample) else keys
  }

  class Sweeper {
    const sample: int
    var cursor: nat

    constructor (s: int)
      ensures sample == s && cursor == 0
    {
      sample, cursor := s, 0;
    }

    /** Picks this tick's keys and moves the cursor. */
    method Pick<K>(keys: seq<K>) returns (window: seq<K>)
      modifies this
      ensures window == Visited(keys, sample, old(cursor))
      ensures cursor == NextCursor(|keys|, sample, old(cursor))
      ensures 0 < sample < |keys| ==>
                && cursor == (old(cursor) % |keys| + sample) % |keys| && |window| == sample
                && forall i :: 0 <= i < sample ==> window[i] == keys[(old(cursor) % |keys| + i) % |keys|]
      ensures !(0 < sample < |keys|) ==> cursor == old(cursor) && window == keys
    {
      window := keys;
      if |keys| > 0 && sample > 0 && sample < |keys| {
        var start := cursor % |keys|;
        window := [];
        for i := 0 to sample
          invariant window == Window(keys, start, i)
          invariant cursor == old(cursor)
        {
          window := window + [keys[(start + i) % |keys|]];
        }
        WindowAt(keys, start, sample);
        cursor := (start + sample) % |keys|;
      }
    }
  }

  // ---------------------------------------------------------------- fairness

  function CursorAfter(n: nat, sample: int, cursor: nat, ticks: nat): nat {
    if ticks == 0 then cursor else NextCursor(n, sample, CursorAfter(n, sample, cursor, ticks - 1))
  }

  /** How often a run of ticks visits the key, from any cursor. */
  ghost function Visits<K>(keys: seq<K>, sample: int, cursor: nat, ticks: nat, key: K): nat {
    if ticks == 0 then 0
    else
      Visits(keys, sample, cursor, ticks - 1, key)
      + multiset(Visited(keys, sample, CursorAfter(|keys|, sample, cursor, ticks - 1)))[key]
  }

  /** How many of the `len` positions from `start` fall on index k, counting round n. */
  function Hits(n: nat, start: nat, len: nat, k: nat): nat
    requires n > 0
  {
    if len == 0 then 0 else Hits(n, start, len - 1, k) + if (start + len - 1) % n == k then 1 else 0
  }

  lemma {:induction false} WindowHits<K>(keys: seq<K>, start: nat, len: nat, k: nat)
    requires k < |keys| && NoDup(keys)
    ensures multiset(Window(keys, start, len))[keys[k]] == Hits(|keys|, start, len, k)
  {
    if len > 0 { WindowHits(keys, start, len - 1, k); }
  }

  lemma ModShift(a: nat, b: nat, n: nat)
    requires n > 0
    ensures (a % n + b) % n == (a + b) % n
  {
    var q := (a % n + b) / n;
    var r := (a % n + b) % n;
    assert a == (a / n) * n + a % n;
    assert a % n + b == q * n + r;
    assert a + b == (a / n + q) * n + r;
    DivUnique(a + b, a / n + q, r, n);
    assert a + b == ((a + b) / n) * n + (a + b) % n;
  }

  lemma {:induction false} HitsJoin(n: nat, start: nat, a: nat, b: nat, k: nat)
    requires n > 0
    ensures Hits(n, start, a + b, k) == Hits(n, start, a, k) + Hits(n, (start + a) % n, b, k)
  {
    if b > 0 {
      HitsJoin(n, start, a, b - 1, k);
      ModShift(start + a, b - 1, n);
    }
  }

  /** k lies d places after start on the circle. */
  function Distance(n: nat, start: nat, k: nat): nat
    requires k < n && start < n
  {
    if k >= start then k - start else k - start + n
  }

  /** m lies in turn c: past the place c * n + d - n, not past c * n + d. */
  ghost predicate InTurn(n: nat, c: nat, d: nat, m: nat) {
    c * n + d - n < m <= c * n + d
  }

  lemma TurnStart(n: nat, d: nat)
    requires d < n
    ensures InTurn(n, 0, d, 0)
  {
  }

  lemma TurnStep(n: nat, c: nat, d: nat, m: nat)
    requires d < n && InTurn(n, c, d, m)
    ensures InTurn(n, if m == c * n + d then c + 1 else c, d, m + 1)
  {
    assert (c + 1) * n == c * n + n;
  }

  lemma HitAt(n: nat, start: nat, k: nat, c: nat, m: nat)
    requires k < n && start < n && InTurn(n, c, Distance(n, start, k), m)
    ensures (start + m) % n == k <==> m == c * n + Distance(n, start, k)
  {
    var d := Distance(n, start, k);
    var q := if k >= start then c else c + 1;
    assert q * n == c * n + if k >= start then 0 else n;
    assert start + d + c * n == q * n + k;
    var gap := c * n + d - m;
    assert (q - 1) * n == q * n - n;
    if gap <= k {
      DivUnique(start + m, q, k - gap, n);
    } else {
      DivUnique(start + m, q - 1, k - gap + n, n);
    }
    assert start + m == ((start + m) / n) * n + (start + m) % n;
  }

  /** Going round the circle hits k once per turn. */
  lemma {:induction false} HitsPerTurn(n: nat, start: nat, m: nat, k: nat)
    requires k < n && start < n
    ensures InTurn(n, Hits(n, start, m, k), Distance(n, start, k), m)
  {
    if m == 0 {
      TurnStart(n, Distance(n, start, k));
    } else {
      HitsPerTurn(n, start, m - 1, k);
      HitAt(n, start, k, Hits(n, start, m - 1, k), m - 1);
      TurnStep(n, Hits(n, start, m - 1, k), Distance(n, start, k), m - 1);
    }
  }

  /** The places a run of ticks walks: the window size, once per tick. */
  function Walked(sample: nat, ticks: nat): nat {
    if ticks == 0 then 0 else Walked(sample, ticks - 1) + sample
  }

  lemma NextWalks(n: nat, sample: nat, cursor: nat, b: nat)
    requires Sampling(n, sample) && cursor % n == b % n
    ensures NextCursor(n, sample, cursor) % n == (b + sample) % n
  {
    ModShift(b, sample, n);
    ModTwice(cursor % n + sample, n);
  }

  lemma {:induction false} CursorWalks(n: nat, sample: nat, cursor: nat, start: nat, t: nat)
    requires Sampling(n, sample) && cursor % n == start % n
    ensures CursorAfter(n, sample, cursor, t) % n == (start + Walked(sample, t)) % n
    decreases t
  {
    if t > 0 {
      CursorWalks(n, sample, cursor, start, t - 1);
      NextWalks(n, sample, CursorAfter(n, sample, cursor, t - 1), start + Walked(sample, t - 1));
    }
  }

  lemma TickHits<K>(keys: seq<K>, sample: nat, cursor: nat, at: nat, k: nat)
    requires k < |keys| && NoDup(keys) && Sampling(|keys|, sample) && cursor % |keys| == at
    ensures multiset(Visited(keys, sample, cursor))[keys[k]] == Hits(|keys|, at, sample, k)
  {
    WindowHits(keys, at, sample, k);
  }

  lemma TickAdds<K>(keys: seq<K>, sample: nat, cursor: nat, t: nat, at: nat, k: nat)
    requires k < |keys| && NoDup(keys) && Sampling(|keys|, sample) && t > 0
    requires CursorAfter(|keys|, sample, cursor, t - 1) % |keys| == at
    ensures Visits(keys, sample, cursor, t, keys[k])
            == Visits(keys, sample, cursor, t - 1, keys[k]) + Hits(|keys|, at, sample, k)
  {
    TickHits(keys, sample, CursorAfter(|keys|, sample, cursor, t - 1), at, k);
  }

  lemma WalkAdds(n: nat, sample: nat, cursor: nat, start: nat, t: nat, k: nat) returns (at: nat)
    requires Sampling(n, sample) && start == cursor % n && t > 0
    ensures at == CursorAfter(n, sample, cursor, t - 1) % n
    ensures Hits(n, start, Walked(sample, t), k) == Hits(n, start, Walked(sample, t - 1), k) + Hits(n, at, sample, k)
  {
    ModTwice(cursor, n);
    CursorWalks(n, sample, cursor, start, t - 1);
    at := (start + Walked(sample, t - 1)) % n;
    HitsJoin(n, start, Walked(sample, t - 1), sample, k);
  }

  lemma {:induction false} SameSteps(a: seq<int>, b: seq<int>, t: nat)
    requires |a| == |b| && t < |a| && a[0] == b[0]
    requires forall j :: 0 < j < |a| ==> a[j] - a[j - 1] == b[j] - b[j - 1]
    ensures a[t] == b[t]
  {
    if t > 0 { SameSteps(a, b, t - 1); }
  }

  /** t ticks visit key k as often as a walk of that length round the circle hits it. */
  lemma VisitsAreHits<K>(keys: seq<K>, sample: nat, cursor: nat, start: nat, t: nat, k: nat)
    requires k < |keys| && NoDup(keys) && Sampling(|keys|, sample) && start == cursor % |keys|
    ensures Visits(keys, sample, cursor, t, keys[k]) == Hits(|keys|, start, Walked(sample, t), k)
  {
    var key, n := keys[k], |keys|;
    var visits := seq(t + 1, j requires 0 <= j => Visits(keys, sample, cursor, j, key));
    var hits := seq(t + 1, j requires 0 <= j && n > 0 => Hits(n, start, Walked(sample, j), k));
    forall j | 0 < j <= t ensures visits[j] - visits[j - 1] == hits[j] - hits[j - 1] {
      BothAdd(keys, sample, cursor, start, j, k);
    }
    SameSteps(visits, hits, t);
  }

  lemma BothAdd<K>(keys: seq<K>, sample: nat, cursor: nat, start: nat, t: nat, k: nat)
    requires k < |keys| && NoDup(keys) && Sampling(|keys|, sample) && start == cursor % |keys| && t > 0
    ensures Visits(keys, sample, cursor, t, keys[k]) - Visits(keys, sample, cursor, t - 1, keys[k])
         == Hits(|keys|, start, Walked(sample, t), k) - Hits(|keys|, start, Walked(sample, t - 1), k)
  {
    var at := WalkAdds(|keys|, sample, cursor, start, t, k);
    TickAdds(keys, sample, cursor, t, at, k);
  }

  lemma ModTwice(a: nat, n: nat)
    requires n > 0
    ensures (a % n) % n == a % n
  {
  }

  lemma NoTwoApart(n: nat, m: nat, c: nat, d: nat, c': nat, d': nat)
    requires d < n && d' < n && InTurn(n, c, d, m) && InTurn(n, c', d', m)
    ensures c <= c' + 1
  {
    assert (c' + 2) * n == c' * n + 2 * n;
    if c >= c' + 2 {
      MulMono(c' + 2, c, n);
    }
  }

  lemma FirstTurnDone(n: nat, c: nat, d: nat, m: nat)
    requires d < n <= m && InTurn(n, c, d, m)
    ensures c >= 1
  {
  }

  /** Fairness: after any number of ticks, from any cursor, any two keys were visited equally often up to one. */
  lemma VisitsBalanced<K>(keys: seq<K>, sample: int, cursor: nat, t: nat, a: K, b: K)
    requires NoDup(keys) && a in keys && b in keys
    ensures Visits(keys, sample, cursor, t, a) <= Visits(keys, sample, cursor, t, b) + 1
  {
    var i :| 0 <= i < |keys| && keys[i] == a;
    var j :| 0 <= j < |keys| && keys[j] == b;
    if Sampling(|keys|, sample) {
      VisitsAreHits(keys, sample, cursor, cursor % |keys|, t, i);
      VisitsAreHits(keys, sample, cursor, cursor % |keys|, t, j);
      HitsBalanced(|keys|, cursor % |keys|, Walked(sample, t), i, j);
    } else {
      VisitsAll(keys, sample, cursor, t, i);
      VisitsAll(keys, sample, cursor, t, j);
    }
  }

  lemma HitsBalanced(n: nat, start: nat, m: nat, i: nat, j: nat)
    requires i < n && j < n && start < n
    ensures Hits(n, start, m, i) <= Hits(n, start, m, j) + 1
  {
    HitsPerTurn(n, start, m, i);
    HitsPerTurn(n, start, m, j);
    NoTwoApart(n, m, Hits(n, start, m, i), Distance(n, start, i), Hits(n, start, m, j), Distance(n, start, j));
  }

  lemma {:induction false} OncePerList<K>(keys: seq<K>, k: nat)
    requires NoDup(keys) && k < |keys|
    ensures multiset(keys)[keys[k]] == 1
  {
    var rest := keys[..k] + keys[k + 1..];
    assert keys == keys[..k] + [keys[k]] + keys[k + 1..];
    assert keys[k] !in keys[..k] && keys[k] !in keys[k + 1..];
  }

  /** Without sampling every tick visits every key once. */
  lemma {:induction false} VisitsAll<K>(keys: seq<K>, sample: int, cursor: nat, t: nat, k: nat)
    requires NoDup(keys) && k < |keys| && !Sampling(|keys|, sample)
    ensures Visits(keys, sample, cursor, t, keys[k]) == t
    decreases t
  {
    if t > 0 {
      VisitsAll(keys, sample, cursor, t - 1, k);
      OncePerList(keys, k);
    }
  }

  /** Any ceil(n / sample) consecutive ticks, from wherever the cursor stands, visit every key. */
  lemma EveryKeyVisited<K>(keys: seq<K>, sample: nat, cursor: nat, key: K)
    requires NoDup(keys) && key in keys && Sampling(|keys|, sample)
    ensures Visits(keys, sample, cursor, (|keys| + sample - 1) / sample, key) >= 1
  {
    var k :| 0 <= k < |keys| && keys[k] == key;
    var n, start, t := |keys|, cursor % |keys|, (|keys| + sample - 1) / sample;
    VisitsAreHits(keys, sample, cursor, start, t, k);
    CeilCovers(n, sample, t);
    HitsPerTurn(n, start, Walked(sample, t), k);
    FirstTurnDone(n, Hits(n, start, Walked(sample, t), k), Distance(n, start, k), Walked(sample, t));
  }

  lemma {:induction false} WalkedIs(sample: nat, t: nat)
    ensures Walked(sample, t) == t * sample
  {
    if t > 0 {
      WalkedIs(sample, t - 1);
      assert t * sample == (t - 1) * sample + sample;
    }
  }

  lemma CeilCovers(n: nat, sample: nat, t: nat)
    requires sample > 0 && t == (n + sample - 1) / sample
    ensures Walked(sample, t) >= n
  {
    WalkedIs(sample, t);
    assert n + sample - 1 == t * sample + (n + sample - 1) % sample;
  }

  // ---------------------------------------------------------------- writing repairs back

  function Listed(reps: seq<M.Replica>): seq<Storage.Replica> {
    StoredIf(reps, true) + StoredIf(reps, false)
  }

  /** The hosts do not lie about the replicas of this chunk and uploads get fresh locators. */
  ghost predicate HonestFor(w: World, h: R.Hosts, c: M.Chunk) {
    R.Honest(h, w.blob, R.Locators(Listed(c.replicas)))
  }

  /** Only the replicas of one chunk may differ. */
  ghost predicate OnlyMended(v: M.View, u: M.View, k: M.Key, i: nat) {
    exists reps :: u == M.UpdateV(v, k, i, reps)
  }

  lemma SameReplicas(v: M.View, k: M.Key, i: nat)
    requires k in v && i < |v[k].chunks|
    ensures OnlyMended(v, v, k, i)
  {
    var ver := v[k];
    var u := M.WithReps(ver, i, ver.chunks[i].replicas);
    assert u.chunks == ver.chunks && u == ver;
    assert v == M.UpdateV(v, k, i, ver.chunks[i].replicas);
  }

  ghost predicate Holding(w: World, rows: seq<M.Replica>, content: bytes) {
    forall j :: 0 <= j < |rows| ==> w.blob(rows[j].locator) == content
  }

  lemma ListedHold(w: World, rows: seq<M.Replica>, content: bytes)
    requires Holding(w, rows, content)
    ensures forall x :: x in Listed(rows) ==> w.blob(x.locator) == content
  {
    StoredFrom(rows, true);
    StoredFrom(rows, false);
  }

  method ToStorage(rows: seq<M.Replica>, ghost w: World, ghost content: bytes) returns (reps: seq<Storage.Replica>)
    requires Holding(w, rows, content) && M.DistinctProviders(rows)
    ensures reps == Listed(rows) && |reps| == |rows| && Storage.DistinctProviders(reps)
    ensures forall x :: x in reps ==> w.blob(x.locator) == content
  {
    reps := StorageReplicas(rows);
    ListedHold(w, rows, content);
    ConvertedDistinct(rows);
  }

  /** What becomes of the rows of one chunk: nothing left to save, nothing to write, or rows to write back. */
  datatype Mending = Lost | Intact | Rewrite(rows: seq<M.Replica>)

  ghost predicate LiveIn(live: seq<Storage.Replica>, rows: seq<M.Replica>) {
    forall x :: x in live ==> exists j :: 0 <= j < |rows| && Stored(rows[j]) == x
  }

  /** All replicas live, and enough of them or no further provider that takes the chunk. */
  ghost predicate NothingToDo(h: R.Hosts, cands: seq<string>, replicas: nat, content: bytes,
                              reps: seq<Storage.Replica>) {
    && (forall x :: x in reps ==> h.alive(x))
    && (|reps| >= replicas || R.NoOneElse(h, cands, R.Names(reps), content, reps))
  }

  /** Every candidate holds a live replica, refuses the chunk, or has a row now. */
  ghost predicate Exhausted(h: R.Hosts, cands: seq<string>, live: seq<Storage.Replica>, content: bytes,
                            rows: seq<M.Replica>)
  {
    forall c :: c in cands ==>
      c in R.Names(live) || h.upload(c, content).None? || exists j :: 0 <= j < |rows| && rows[j].provider == c
  }

  ghost predicate Uploaded(h: R.Hosts, cands: seq<string>, content: bytes, r: Storage.Replica) {
    r.provider in cands && h.upload(r.provider, content) == Some(r)
  }

  /** Rows as they should be written: the chunk's bytes, distinct providers, alive, no live one lost, refilled. */
  ghost predicate WellMended(w: World, h: R.Hosts, cands: seq<string>, replicas: nat, content: bytes,
                             live: seq<Storage.Replica>, rows: seq<M.Replica>)
  {
    && Holding(w, rows, content) && M.DistinctProviders(rows) && LiveIn(live, rows)
    && (forall j :: 0 <= j < |rows| ==> rows[j].alive)
    && |live| <= |rows| <= Max(|live|, replicas)
    && (|rows| < replicas ==> Exhausted(h, cands, live, content, rows))
    && (forall j :: 0 <= j < |rows| ==> Stored(rows[j]) in live || Uploaded(h, cands, content, Stored(rows[j])))
  }

  /** Repairs the replicas of a chunk that holds `content`. */
  method MendRows(rows: seq<M.Replica>, h: R.Hosts, cands: seq<string>, replicas: nat, ghost w: World,
                  ghost content: bytes)
    returns (m: Mending)
    requires replicas >= 1 && NoDup(cands) && R.Honest(h, w.blob, R.Locators(Listed(rows)))
    requires Holding(w, rows, content) && M.DistinctProviders(rows)
    ensures m.Lost? <==> R.Unsavable(R.Live(Listed(rows), h.alive), h, replicas)
    ensures m.Intact? <==> !m.Lost? && NothingToDo(h, cands, replicas, content, Listed(rows))
    ensures m.Rewrite? ==> WellMended(w, h, cands, replicas, content, R.Live(Listed(rows), h.alive), m.rows)
    ensures m.Rewrite? ==> |m.rows| == R.Refilled(R.Live(Listed(rows), h.alive), h, cands, replicas, content)
  {
    var reps := ToStorage(rows, w, content);
    m := MendListed(reps, h, cands, replicas, R.Live(reps, h.alive), w, content);
  }

  method MendListed(reps: seq<Storage.Replica>, h: R.Hosts, cands: seq<string>, replicas: nat,
                    ghost live: seq<Storage.Replica>, ghost w: World, ghost content: bytes) returns (m: Mending)
    requires replicas >= 1 && NoDup(cands) && R.Honest(h, w.blob, R.Locators(reps)) && live == R.Live(reps, h.alive)
    requires Storage.DistinctProviders(reps) && forall x :: x in reps ==> w.blob(x.locator) == content
    ensures m.Lost? <==> R.Unsavable(live, h, replicas)
    ensures m.Intact? <==> !m.Lost? && NothingToDo(h, cands, replicas, content, reps)
    ensures m.Rewrite? ==> WellMended(w, h, cands, replicas, content, live, m.rows)
    ensures m.Rewrite? ==> |m.rows| == R.Refilled(live, h, cands, replicas, content)
  {
    var r := RepairListed(reps, h, cands, replicas, live, w, content);
    if !r.Repaired? {
      m := Lost;
    } else if !r.changed {
      m := Intact;
    } else {
      m := AsRows(r.replicas, h, cands, replicas, live, w, content);
    }
  }

  /** What a repair leaves of the list, with hosts that deliver whole blobs. */
  ghost predicate ListMended(w: World, h: R.Hosts, cands: seq<string>, replicas: nat, content: bytes,
                             live: seq<Storage.Replica>, list: seq<Storage.Replica>)
  {
    && live <= list && Storage.DistinctProviders(list) && (forall x :: x in list ==> w.blob(x.locator) == content)
    && |list| <= Max(|live|, replicas) && R.Added(h, cands, live, list, content)
    && (|list| < replicas ==> R.NoOneElse(h, cands, R.Names(live), content, list))
  }

  method RepairListed(reps: seq<Storage.Replica>, h: R.Hosts, cands: seq<string>, replicas: nat,
                      ghost live: seq<Storage.Replica>, ghost w: World, ghost content: bytes)
    returns (r: R.RepairResult)
    requires replicas >= 1 && NoDup(cands) && R.Honest(h, w.blob, R.Locators(reps)) && live == R.Live(reps, h.alive)
    requires Storage.DistinctProviders(reps) && forall x :: x in reps ==> w.blob(x.locator) == content
    ensures !r.Repaired? <==> R.Unsavable(live, h, replicas)
    ensures r.Repaired? ==> ListMended(w, h, cands, replicas, content, live, r.replicas)
    ensures r.Repaired? ==> |r.replicas| == R.Refilled(live, h, cands, replicas, content)
    ensures r.Repaired? ==> (!r.changed <==> NothingToDo(h, cands, replicas, content, reps))
  {
    ghost var read;
    r, read := R.RepairChunk(h, reps, cands, replicas, w.blob, content);
    if r.Repaired? {
      if |live| < replicas {
        R.WholeReads(h, live, replicas, w.blob, R.Locators(reps), read, content);
      } else {
        R.EnoughLive(live, h, cands, replicas, read, content);
      }
      Unchanged(h, cands, replicas, content, reps, live, r.replicas, read);
    }
  }

  lemma Unchanged(h: R.Hosts, cands: seq<string>, replicas: nat, content: bytes, reps: seq<Storage.Replica>,
                  live: seq<Storage.Replica>, list: seq<Storage.Replica>, read: bytes)
    requires live == R.Live(reps, h.alive) && live <= list && |list| <= Max(|live|, replicas)
    requires R.Added(h, cands, live, list, read) && (|live| < replicas ==> read == content)
    requires |list| < replicas ==> R.NoOneElse(h, cands, R.Names(live), content, list)
    ensures live == reps && |list| == |live| <==> NothingToDo(h, cands, replicas, content, reps)
  {
    if live == reps && |list| == |live| {
      assert list == reps;
    }
    if NothingToDo(h, cands, replicas, content, reps) && |list| > |live| {
      var x := list[|live|];
      assert x.provider in cands && x.provider !in R.Names(live) && h.upload(x.provider, content) == Some(x);
      TakenAnyway(h, cands, content, reps, x);
    }
  }

  lemma TakenAnyway(h: R.Hosts, cands: seq<string>, content: bytes, reps: seq<Storage.Replica>, x: Storage.Replica)
    requires x.provider in cands && h.upload(x.provider, content).Some?
             && R.NoOneElse(h, cands, R.Names(reps), content, reps)
    ensures x.provider in R.Names(reps)
  {
  }

  method AsRows(reps: seq<Storage.Replica>, ghost h: R.Hosts, ghost cands: seq<string>, ghost replicas: nat,
                ghost live: seq<Storage.Replica>, ghost w: World, ghost content: bytes)
    returns (m: Mending)
    requires ListMended(w, h, cands, replicas, content, live, reps)
    ensures m.Rewrite? && |m.rows| == |reps| && WellMended(w, h, cands, replicas, content, live, m.rows)
  {
    var rows := FromStorageReplicas(reps);
    MendedHolds(w, rows, reps, content);
    LiveKept(rows, reps, live);
    RowsExhaust(h, cands, live, content, reps, rows);
    RowsUploaded(h, cands, live, content, reps, rows);
    m := Rewrite(rows);
  }

  lemma RowsUploaded(h: R.Hosts, cands: seq<string>, live: seq<Storage.Replica>, content: bytes,
                     reps: seq<Storage.Replica>, rows: seq<M.Replica>)
    requires |rows| == |reps| && forall j :: 0 <= j < |rows| ==> Stored(rows[j]) == reps[j]
    requires live <= reps && R.Added(h, cands, live, reps, content)
    ensures forall j :: 0 <= j < |rows| ==> Stored(rows[j]) in live || Uploaded(h, cands, content, Stored(rows[j]))
  {
    forall j | 0 <= j < |rows| ensures reps[j] in live || Uploaded(h, cands, content, reps[j]) {
      if j < |live| { assert reps[j] == live[j]; }
    }
  }

  lemma RowsExhaust(h: R.Hosts, cands: seq<string>, live: seq<Storage.Replica>, content: bytes,
                    reps: seq<Storage.Replica>,
                    rows: seq<M.Replica>)
    requires |rows| == |reps| && forall j :: 0 <= j < |rows| ==> Stored(rows[j]) == reps[j]
    ensures R.NoOneElse(h, cands, R.Names(live), content, reps) ==> Exhausted(h, cands, live, content, rows)
  {
    if R.NoOneElse(h, cands, R.Names(live), content, reps) {
      forall c | c in cands && c !in R.Names(live) && h.upload(c, content).Some?
        ensures exists j :: 0 <= j < |rows| && rows[j].provider == c
      {
        var x :| x in reps && x.provider == c;
        var j :| 0 <= j < |reps| && reps[j] == x;
        assert Stored(rows[j]).provider == c;
      }
    }
  }

  lemma MendedHolds(w: World, rows: seq<M.Replica>, reps: seq<Storage.Replica>, content: bytes)
    requires |rows| == |reps| && forall j :: 0 <= j < |rows| ==> Stored(rows[j]) == reps[j]
    requires Storage.DistinctProviders(reps) && forall x :: x in reps ==> w.blob(x.locator) == content
    ensures Holding(w, rows, content) && M.DistinctProviders(rows)
  {
    forall j | 0 <= j < |rows| ensures rows[j].locator == reps[j].locator && rows[j].provider == reps[j].provider
      && reps[j] in reps {
      assert Stored(rows[j]) == reps[j];
    }
  }

  lemma LiveKept(rows: seq<M.Replica>, reps: seq<Storage.Replica>, live: seq<Storage.Replica>)
    requires |rows| == |reps| && forall j :: 0 <= j < |rows| ==> Stored(rows[j]) == reps[j]
    requires live <= reps
    ensures LiveIn(live, rows)
  {
    forall x | x in live ensures exists j :: 0 <= j < |rows| && Stored(rows[j]) == x {
      var j :| 0 <= j < |live| && live[j] == x;
      assert Stored(rows[j]) == reps[j] == live[j];
    }
  }

  lemma ChunkHolds(w: World, v: M.View, k: M.Key, i: nat)
    requires w.cs > 0 && Good(w, v) && k in v && i < |v[k].chunks|
    ensures var c := v[k].chunks[i];
            && c.offset + c.size <= |w.body(v[k].etag)|
            && Holding(w, c.replicas, w.body(v[k].etag)[c.offset..c.offset + c.size])
            && M.DistinctProviders(c.replicas)
  {
    assert GoodVersion(w, v[k]);
    assert Locates(w, w.body(v[k].etag), v[k].chunks[i]);
  }

  /**
   What a sweep makes of the rows of one chunk: unchanged if it cannot be saved, if the write failed or if
   there is nothing to do, and otherwise well mended.
   */
  ghost predicate ChunkSwept(w: World, h: R.Hosts, cands: seq<string>, replicas: nat, content: bytes, written: bool,
                             was: seq<M.Replica>, now: seq<M.Replica>)
  {
    var live := R.Live(Listed(was), h.alive);
    if R.Unsavable(live, h, replicas) || !written || NothingToDo(h, cands, replicas, content, Listed(was)) then
      now == was
    else
      WellMended(w, h, cands, replicas, content, live, now)
  }

  /** The bytes of chunk i of a version. */
  ghost function ChunkBytes(w: World, ver: M.Version, i: nat): bytes
    requires w.cs > 0 && GoodVersion(w, ver) && i < |ver.chunks|
  {
    w.body(ver.etag)[ver.chunks[i].offset..ver.chunks[i].offset + ver.chunks[i].size]
  }

  ghost predicate CannotSave(h: R.Hosts, rows: seq<M.Replica>, replicas: nat) {
    R.Unsavable(R.Live(Listed(rows), h.alive), h, replicas)
  }

  /**
   One chunk of the sweep, as one step: read its rows, repair, and write back what changed if the store
   can be written.  Every row still locates the object's own bytes, and only that chunk's replicas may differ.
   */
  method MendChunk(store: M.Store, k: M.Key, i: nat, h: R.Hosts, cands: seq<string>, replicas: nat, writable: bool,
                   ghost w: World)
    returns (lost: bool)
    requires store.Valid() && w.cs > 0 && Good(w, store.view) && k in store.view && i < |store.view[k].chunks|
    requires replicas >= 1 && NoDup(cands) && HonestFor(w, h, store.view[k].chunks[i])
    modifies store
    ensures store.Valid() && Good(w, store.view) && OnlyMended(old(store.view), store.view, k, i)
    ensures k in store.view && i < |store.view[k].chunks|
            && ChunkSwept(w, h, cands, replicas, old(ChunkBytes(w, store.view[k], i)), writable,
                          old(store.view[k].chunks[i].replicas), store.view[k].chunks[i].replicas)
    ensures lost <==> CannotSave(h, old(store.view[k].chunks[i].replicas), replicas)
  {
    ghost var v := store.view;
    ChunkHolds(w, v, k, i);
    SameReplicas(v, k, i);
    var rows := store.GetReplicas(k, i);
    var m := MendRows(rows, h, cands, replicas, w, ChunkBytes(w, v[k], i));
    lost := m.Lost?;
    if m.Rewrite? && writable {
      RepairKeeps(w, v, k, i, m.rows);
      store.UpdateChunkReplicas(k, i, m.rows);
    }
  }

  // ---------------------------------------------------------------- one tick

  /** The object is the same but for the replicas of its chunks. */
  ghost predicate SameShape(a: M.Version, b: M.Version) {
    && b.size == a.size && b.etag == a.etag && |b.chunks| == |a.chunks|
    && forall i :: 0 <= i < |a.chunks| ==>
         b.chunks[i].offset == a.chunks[i].offset && b.chunks[i].size == a.chunks[i].size
  }

  /** Chunks from i on are untouched, earlier ones differ in replicas only, other objects not at all. */
  ghost predicate SweptUpTo(v: M.View, u: M.View, k: M.Key, i: nat) {
    && k in v && u.Keys == v.Keys && SameShape(v[k], u[k])
    && (forall j :: i <= j < |v[k].chunks| ==> u[k].chunks[j] == v[k].chunks[j])
    && (forall o :: o in v && o != k ==> u[o] == v[o])
  }

  lemma SweptNext(v: M.View, u: M.View, u': M.View, k: M.Key, i: nat)
    requires SweptUpTo(v, u, k, i) && i < |v[k].chunks| && OnlyMended(u, u', k, i)
    ensures SweptUpTo(v, u', k, i + 1)
    ensures forall j :: 0 <= j < i ==> u'[k].chunks[j] == u[k].chunks[j]
  {
  }

  /** What surrounds a sweep: hosts per chunk, candidates, wanted replicas, and which store calls succeed. */
  datatype Surroundings = Surroundings(hosts: (M.Key, nat) -> R.Hosts, cands: seq<string>, replicas: nat,
                                       loads: M.Key -> bool, writes: (M.Key, nat) -> bool)

  /** The first m chunks of the object are as the sweep should leave them. */
  ghost predicate ChunksSwept(w: World, s: Surroundings, k: M.Key, was: M.Version, now: M.Version, m: nat)
    requires w.cs > 0 && GoodVersion(w, was)
  {
    && m <= |was.chunks| == |now.chunks|
    && forall i: nat {:trigger ChunkBytes(w, was, i)} :: i < m ==>
         ChunkSwept(w, s.hosts(k, i), s.cands, s.replicas, ChunkBytes(w, was, i), s.writes(k, i),
                    was.chunks[i].replicas, now.chunks[i].replicas)
  }

  /** An object whose rows load has every chunk swept, any other stays as it is. */
  ghost predicate ObjectSwept(w: World, s: Surroundings, k: M.Key, was: M.Version, now: M.Version)
    requires w.cs > 0 && GoodVersion(w, was)
  {
    if s.loads(k) then ChunksSwept(w, s, k, was, now, |was.chunks|) else now == was
  }

  /** The chunks among the first m that cannot be saved. */
  ghost function LostChunks(s: Surroundings, k: M.Key, ver: M.Version, m: nat): set<nat>
    requires m <= |ver.chunks|
  {
    set i: nat | i < m && CannotSave(s.hosts(k, i), ver.chunks[i].replicas, s.replicas)
  }

  lemma LostMore(s: Surroundings, k: M.Key, ver: M.Version, i: nat)
    requires i < |ver.chunks|
    ensures |LostChunks(s, k, ver, i + 1)| ==
            |LostChunks(s, k, ver, i)| + if CannotSave(s.hosts(k, i), ver.chunks[i].replicas, s.replicas) then 1 else 0
  {
    assert LostChunks(s, k, ver, i + 1) == LostChunks(s, k, ver, i) +
      if CannotSave(s.hosts(k, i), ver.chunks[i].replicas, s.replicas) then {i} else {};
  }

  lemma ChunksMore(w: World, s: Surroundings, k: M.Key, was: M.Version, now: M.Version, now': M.Version, i: nat)
    requires w.cs > 0 && GoodVersion(w, was) && i < |was.chunks| == |now'.chunks| && ChunksSwept(w, s, k, was, now, i)
    requires forall j :: 0 <= j < i ==> now'.chunks[j] == now.chunks[j]
    requires ChunkSwept(w, s.hosts(k, i), s.cands, s.replicas, ChunkBytes(w, was, i), s.writes(k, i),
                        was.chunks[i].replicas, now'.chunks[i].replicas)
    ensures ChunksSwept(w, s, k, was, now', i + 1)
  {
  }

  /** The hosts tell the truth about every chunk row of the object. */
  ghost predicate HonestObject(w: World, hosts: (M.Key, nat) -> R.Hosts, k: M.Key, ver: M.Version) {
    forall i: nat :: i < |ver.chunks| ==> HonestFor(w, hosts(k, i), ver.chunks[i])
  }

  ghost predicate HonestHosts(w: World, hosts: (M.Key, nat) -> R.Hosts, v: M.View) {
    forall k :: k in v ==> HonestObject(w, hosts, k, v[k])
  }

  /** Sweeps the chunks of one object; if its rows cannot be loaded it is skipped. */
  method SweepObject(store: M.Store, k: M.Key, s: Surroundings, ghost w: World) returns (lost: nat)
    requires store.Valid() && w.cs > 0 && Good(w, store.view) && k in store.view && s.replicas >= 1 && NoDup(s.cands)
    requires HonestObject(w, s.hosts, k, store.view[k])
    modifies store
    ensures store.Valid() && Good(w, store.view)
            && SweptUpTo(old(store.view), store.view, k, |old(store.view)[k].chunks|)
    ensures ObjectSwept(w, s, k, old(store.view)[k], store.view[k])
    ensures lost == if s.loads(k) then |LostChunks(s, k, old(store.view)[k], |old(store.view)[k].chunks|)| else 0
  {
    ghost var v := store.view;
    SoFarStart(w, s, k, v);
    if !s.loads(k) {
      return 0;
    }
    lost := SweepChunks(store, k, s, w);
  }

  method SweepChunks(store: M.Store, k: M.Key, s: Surroundings, ghost w: World) returns (lost: nat)
    requires store.Valid() && SweepSoFar(w, s, k, store.view, store.view, 0)
    requires s.replicas >= 1 && NoDup(s.cands) && HonestObject(w, s.hosts, k, store.view[k])
    modifies store
    ensures store.Valid() && SweepSoFar(w, s, k, old(store.view), store.view, |old(store.view)[k].chunks|)
    ensures lost == |LostChunks(s, k, old(store.view)[k], |old(store.view)[k].chunks|)|
  {
    ghost var v := store.view;
    ghost var ver := v[k];
    var chunks := store.GetObjectChunks(k);
    lost := 0;
    assert LostChunks(s, k, ver, 0) == {};
    for i := 0 to |chunks|
      invariant store.Valid() && SweepSoFar(w, s, k, v, store.view, i)
      invariant lost == |LostChunks(s, k, ver, i)|
    {
      lost := SweepChunk(store, k, i, s, lost, w, v);
    }
  }

  lemma SoFarStart(w: World, s: Surroundings, k: M.Key, v: M.View)
    requires w.cs > 0 && Good(w, v) && k in v
    ensures SweepSoFar(w, s, k, v, v, 0)
  {
  }

  ghost predicate SweepSoFar(w: World, s: Surroundings, k: M.Key, v: M.View, u: M.View, i: nat) {
    && w.cs > 0 && Good(w, u) && SweptUpTo(v, u, k, i)
    && GoodVersion(w, v[k]) && ChunksSwept(w, s, k, v[k], u[k], i)
  }

  method SweepChunk(store: M.Store, k: M.Key, i: nat, s: Surroundings, before: nat, ghost w: World, ghost v: M.View)
    returns (lost: nat)
    requires store.Valid() && SweepSoFar(w, s, k, v, store.view, i) && i < |v[k].chunks|
    requires s.replicas >= 1 && NoDup(s.cands) && HonestObject(w, s.hosts, k, v[k])
    requires before == |LostChunks(s, k, v[k], i)|
    modifies store
    ensures store.Valid() && SweepSoFar(w, s, k, v, store.view, i + 1)
    ensures lost == |LostChunks(s, k, v[k], i + 1)|
  {
    ghost var u := store.view;
    SoFarAt(w, s, k, v, u, i);
    var gone := MendChunk(store, k, i, s.hosts(k, i), s.cands, s.replicas, s.writes(k, i), w);
    SoFarMore(w, s, k, v, u, store.view, i);
    LostMore(s, k, v[k], i);
    lost := if gone then before + 1 else before;
  }

  lemma SoFarAt(w: World, s: Surroundings, k: M.Key, v: M.View, u: M.View, i: nat)
    requires SweepSoFar(w, s, k, v, u, i) && i < |v[k].chunks|
    ensures w.cs > 0 && Good(w, u) && k in u && i < |u[k].chunks| && u[k].chunks[i] == v[k].chunks[i]
    ensures GoodVersion(w, u[k]) && ChunkBytes(w, u[k], i) == ChunkBytes(w, v[k], i)
  {
  }

  lemma SoFarMore(w: World, s: Surroundings, k: M.Key, v: M.View, u: M.View, u': M.View, i: nat)
    requires SweepSoFar(w, s, k, v, u, i) && i < |v[k].chunks| && Good(w, u') && OnlyMended(u, u', k, i)
    requires k in u' && i < |u'[k].chunks|
             && ChunkSwept(w, s.hosts(k, i), s.cands, s.replicas, ChunkBytes(w, v[k], i), s.writes(k, i),
                           v[k].chunks[i].replicas, u'[k].chunks[i].replicas)
    ensures SweepSoFar(w, s, k, v, u', i + 1)
  {
    SweptNext(v, u, u', k, i);
    ChunksMore(w, s, k, v[k], u[k], u'[k], i);
  }

  lemma ModDistinct(x: nat, y: nat, n: nat)
    requires n > 0 && x < y < x + n
    ensures x % n != y % n
  {
    if x % n == y % n {
      var p, q := x / n, y / n;
      assert x == p * n + x % n && y == q * n + y % n;
      if q <= p { MulMono(q, p, n); } else { MulMono(p + 1, q, n); }
    }
  }

  lemma {:induction false} WindowAt<K>(keys: seq<K>, start: nat, len: nat)
    requires keys != []
    ensures |Window(keys, start, len)| == len
    ensures forall i :: 0 <= i < len ==> Window(keys, start, len)[i] == keys[(start + i) % |keys|]
  {
    if len > 0 { WindowAt(keys, start, len - 1); }
  }

  lemma DifferentPlaces<K>(keys: seq<K>, start: nat, i: nat, j: nat)
    requires NoDup(keys) && i < j < |keys|
    ensures keys[(start + i) % |keys|] != keys[(start + j) % |keys|]
  {
    ModDistinct(start + i, start + j, |keys|);
  }

  /** A tick visits no key twice, and only keys of the list. */
  lemma VisitedOnce<K>(keys: seq<K>, sample: int, cursor: nat)
    requires NoDup(keys)
    ensures NoDup(Visited(keys, sample, cursor)) && forall x :: x in Visited(keys, sample, cursor) ==> x in keys
    ensures 0 < sample < |keys| ==> |Visited(keys, sample, cursor)| == sample
    ensures !(0 < sample < |keys|) ==> Visited(keys, sample, cursor) == keys
  {
    if keys != [] && Sampling(|keys|, sample) {
      var start := cursor % |keys|;
      var win := Window(keys, start, sample);
      WindowAt(keys, start, sample);
      forall i, j | 0 <= i < j < |win| ensures win[i] != win[j] {
        DifferentPlaces(keys, start, i, j);
      }
    }
  }

  /** All objects keep their shape; those outside `done` did not change at all. */
  ghost predicate SweptAll(v: M.View, u: M.View, done: seq<M.Key>) {
    && u.Keys == v.Keys
    && forall k :: k in v ==> SameShape(v[k], u[k]) && (k !in done ==> u[k] == v[k])
  }

  lemma SweptObject(v: M.View, u: M.View, u': M.View, done: seq<M.Key>, k: M.Key)
    requires SweptAll(v, u, done) && k in u && SweptUpTo(u, u', k, |u[k].chunks|)
    ensures SweptAll(v, u', done + [k])
  {
    forall o | o in v ensures SameShape(v[o], u'[o]) && (o !in done + [k] ==> u'[o] == v[o]) {
      assert SameShape(v[o], u[o]);
      if o == k { assert SameShape(u[o], u'[o]); } else { assert u'[o] == u[o]; }
    }
  }

  lemma SweptStart(v: M.View)
    ensures SweptAll(v, v, [])
  {
  }

  lemma NextInWindow(window: seq<M.Key>, n: nat)
    requires NoDup(window) && n < |window|
    ensures window[n] !in window[..n] && window[..n + 1] == window[..n] + [window[n]]
  {
  }

  /** Every object of the list is as the sweep should leave it. */
  ghost predicate WindowSwept(w: World, s: Surroundings, done: seq<M.Key>, v: M.View, u: M.View)
    requires w.cs > 0 && Good(w, v)
  {
    && (forall k :: k in done ==> k in v && k in u && GoodVersion(w, v[k]))
    && (forall k {:trigger ObjectSwept(w, s, k, v[k], u[k])} :: k in done ==> ObjectSwept(w, s, k, v[k], u[k]))
  }

  lemma WindowMore(w: World, s: Surroundings, done: seq<M.Key>, v: M.View, u: M.View, u': M.View, k: M.Key)
    requires w.cs > 0 && Good(w, v) && WindowSwept(w, s, done, v, u) && k !in done && k in v && GoodVersion(w, v[k])
    requires SweptUpTo(u, u', k, |v[k].chunks|) && ObjectSwept(w, s, k, v[k], u'[k])
    ensures WindowSwept(w, s, done + [k], v, u')
  {
    forall o | o in done + [k] ensures o in v && o in u' && GoodVersion(w, v[o]) && ObjectSwept(w, s, o, v[o], u'[o]) {
      assert o in done ==> o in u && ObjectSwept(w, s, o, v[o], u[o]);
    }
  }

  /** The chunks of the listed objects that cannot be saved. */
  ghost function AllLost(s: Surroundings, v: M.View, done: seq<M.Key>): set<(M.Key, nat)>
    requires forall k :: k in done ==> k in v
  {
    set k, i: nat | k in done && s.loads(k) && i in LostChunks(s, k, v[k], |v[k].chunks|) :: (k, i)
  }

  lemma Tagged(k: M.Key, a: set<nat>, b: set<(M.Key, nat)>)
    requires b == set i | i in a :: (k, i)
    ensures |b| == |a|
  {
    if a != {} {
      var x :| x in a;
      Tagged(k, a - {x}, b - {(k, x)});
    }
  }

  lemma AllLostMore(s: Surroundings, v: M.View, done: seq<M.Key>, k: M.Key)
    requires (forall o :: o in done + [k] ==> o in v) && k in v && k !in done
    ensures forall o :: o in done ==> o in v
    ensures |AllLost(s, v, done + [k])|
         == |AllLost(s, v, done)| + if s.loads(k) then |LostChunks(s, k, v[k], |v[k].chunks|)| else 0
  {
    assert forall o :: o in done ==> o in done + [k];
    var a := LostChunks(s, k, v[k], |v[k].chunks|);
    var b := if s.loads(k) then set i | i in a :: (k, i) else {};
    assert AllLost(s, v, done + [k]) == AllLost(s, v, done) + b;
    assert AllLost(s, v, done) !! b;
    if s.loads(k) { Tagged(k, a, b); }
  }

  /** Mends every chunk of the window's objects. */
  method SweepWindow(store: M.Store, window: seq<M.Key>, s: Surroundings, ghost w: World) returns (lost: nat)
    requires store.Valid() && w.cs > 0 && Good(w, store.view) && s.replicas >= 1 && NoDup(s.cands)
             && HonestHosts(w, s.hosts, store.view)
    requires NoDup(window) && forall k :: k in window ==> k in store.view
    modifies store
    ensures store.Valid() && Good(w, store.view) && SweptAll(old(store.view), store.view, window)
    ensures WindowSwept(w, s, window, old(store.view), store.view)
    ensures lost == |AllLost(s, old(store.view), window)|
  {
    ghost var v := store.view;
    SweptStart(v);
    lost := 0;
    for n := 0 to |window|
      invariant store.Valid() && TickSoFar(w, s, v, store.view, window[..n], lost)
    {
      NextInWindow(window, n);
      lost := SweepNext(store, window[n], s, lost, w, v, window[..n]);
    }
    assert window[..|window|] == window;
  }

  ghost predicate TickSoFar(w: World, s: Surroundings, v: M.View, u: M.View, done: seq<M.Key>, lost: nat) {
    && w.cs > 0 && Good(w, v) && Good(w, u) && SweptAll(v, u, done) && WindowSwept(w, s, done, v, u)
    && lost == |AllLost(s, v, done)|
  }

  method SweepNext(store: M.Store, k: M.Key, s: Surroundings, before: nat, ghost w: World, ghost v: M.View,
                   ghost done: seq<M.Key>)
    returns (lost: nat)
    requires store.Valid() && TickSoFar(w, s, v, store.view, done, before) && k in v && k !in done
    requires s.replicas >= 1 && NoDup(s.cands) && HonestHosts(w, s.hosts, v)
    modifies store
    ensures store.Valid() && TickSoFar(w, s, v, store.view, done + [k], lost)
  {
    ghost var u := store.view;
    assert u[k] == v[k] && HonestObject(w, s.hosts, k, u[k]);
    var gone := SweepObject(store, k, s, w);
    lost := before + gone;
    TickMore(w, s, v, u, store.view, done, k, before, gone);
  }

  lemma TickMore(w: World, s: Surroundings, v: M.View, u: M.View, u': M.View, done: seq<M.Key>, k: M.Key, before: nat,
                 gone: nat)
    requires TickSoFar(w, s, v, u, done, before) && k in v && k !in done && k in u && u[k] == v[k] && Good(w, u')
    requires SweptUpTo(u, u', k, |v[k].chunks|) && GoodVersion(w, v[k]) && ObjectSwept(w, s, k, v[k], u'[k])
    requires gone == if s.loads(k) then |LostChunks(s, k, v[k], |v[k].chunks|)| else 0
    ensures TickSoFar(w, s, v, u', done + [k], before + gone)
  {
    SweptObject(v, u, u', done, k);
    WindowMore(w, s, done, v, u, u', k);
    AllLostMore(s, v, done, k);
  }

  /**
   One uncancelled tick: the keys of the window, each chunk mended and written back.  Every chunk of the window
   whose rows load, that can be saved, has something to do and can be written ends well mended, and `lost` counts
   those that cannot be saved.  Every row of the store still locates its object's own bytes, every object keeps
   its shape, and no object outside the window changes.
   */
  method RunOnce(sweeper: Sweeper, store: M.Store, keys: seq<M.Key>, s: Surroundings, ghost w: World)
    returns (window: seq<M.Key>, lost: nat)
    requires store.Valid() && w.cs > 0 && Good(w, store.view) && s.replicas >= 1 && NoDup(s.cands)
             && HonestHosts(w, s.hosts, store.view)
    requires NoDup(keys) && forall k :: k in keys <==> k in store.view
    modifies sweeper, store
    ensures window == Visited(keys, sweeper.sample, old(sweeper.cursor))
    ensures sweeper.cursor == NextCursor(|keys|, sweeper.sample, old(sweeper.cursor))
    ensures NoDup(window) && (forall k :: k in window ==> k in keys)
    ensures 0 < sweeper.sample < |keys| ==> |window| == sweeper.sample
    ensures !(0 < sweeper.sample < |keys|) ==> window == keys
    ensures store.Valid() && Good(w, store.view) && SweptAll(old(store.view), store.view, window)
    ensures WindowSwept(w, s, window, old(store.view), store.view)
    ensures lost == |AllLost(s, old(store.view), window)|
  {
    window := sweeper.Pick(keys);
    VisitedOnce(keys, sweeper.sample, old(sweeper.cursor));
    lost := SweepWindow(store, window, s, w);
  }
}
