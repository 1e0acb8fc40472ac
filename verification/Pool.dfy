/** The provider pool: health, and the order in which providers are tried for a chunk. */
module Pool {
  import opened Bytes
  import opened Storage
  import opened Replication
  import Alignment

  datatype Provider = Provider(name: string, maxBytes: int, durable: bool)

  const FAIL_THRESHOLD: nat := 3

  type Health = map<string, nat>

  predicate Healthy(fails: Health, p: Provider) {
    p.name !in fails || fails[p.name] < FAIL_THRESHOLD
  }

  /** 0 healthy durable, 1 healthy temporary, 2 unhealthy durable, 3 unhealthy temporary. */
  function Tier(fails: Health, p: Provider): nat {
    (if Healthy(fails, p) then 0 else 2) + if p.durable then 0 else 1
  }

  /** The providers among `ps` that fit the chunk and are in tier t, in configuration order. */
  function InTier(ps: seq<Provider>, fails: Health, size: int, t: nat): (r: seq<Provider>)
    ensures forall p :: p in r ==> Tier(fails, p) == t
  {
    if ps == [] then []
    else
      var p := ps[|ps| - 1];
      var front := InTier(ps[..|ps| - 1], fails, size, t);
      if p.maxBytes >= size && Tier(fails, p) == t then front + [p] else front
  }

  function Fitting(ps: seq<Provider>, size: int): seq<Provider> {
    if ps == [] then []
    else
      var p := ps[|ps| - 1];
      if p.maxBytes >= size then Fitting(ps[..|ps| - 1], size) + [p] else Fitting(ps[..|ps| - 1], size)
  }

  function RotatedBy<T>(s: seq<T>, n: int): seq<T> {
    if |s| <= 1 then s else s[n % |s|..] + s[..n % |s|]
  }

  /** Go's remainder, which takes the sign of the dividend. */
  function TruncatedRem(n: int, m: nat): int
    requires m > 0
  {
    if n >= 0 then n % m else -((-n) % m)
  }

  lemma NegRem(n: int, m: nat)
    requires m > 0 && n < 0
    ensures n % m == if (-n) % m == 0 then 0 else m - (-n) % m
  {
    var q, r := (-n) / m, (-n) % m;
    assert -n == q * m + r;
    if r == 0 {
      ModIs(n, -q, 0, m);
    } else {
      assert n == (-q - 1) * m + (m - r);
      ModIs(n, -q - 1, m - r, m);
    }
  }

  lemma ModIs(x: int, q: int, r: int, m: int)
    requires 0 <= r < m && x == q * m + r
    ensures x % m == r
  {
    Alignment.DivUnique(x, q, r, m);
  }

  /** Rotates in place to the left by n positions; n may exceed the length or be negative. */
  method Rotate<T>(a: array<T>, n: int)
    modifies a
    ensures a[..] == RotatedBy(old(a[..]), n)
  {
    if a.Length <= 1 {
      return;
    }
    var k := TruncatedRem(n, a.Length);
    if n < 0 {
      NegRem(n, a.Length);
    }
    if k < 0 {
      k := k + a.Length;
    }
    assert k == n % a.Length;
    if k == 0 {
      assert a[..] == a[0..] + a[..0];
      return;
    }
    var tmp := a[k..] + a[..k];
    forall i | 0 <= i < a.Length {
      a[i] := tmp[i];
    }
    assert a[..] == tmp;
  }

  /** What `Candidates` yields when the rotation counter reads `rot`. */
  function Ordered(ps: seq<Provider>, fails: Health, size: int, rot: int): seq<Provider> {
    RotatedBy(InTier(ps, fails, size, 0), rot) + RotatedBy(InTier(ps, fails, size, 1), rot)
    + InTier(ps, fails, size, 2) + InTier(ps, fails, size, 3)
  }

  method RotatedTier(s: seq<Provider>, rot: int) returns (r: seq<Provider>)
    ensures r == RotatedBy(s, rot)
  {
    var a := new Provider[|s|](i requires 0 <= i < |s| => s[i]);
    assert a[..] == s;
    Rotate(a, rot);
    r := a[..];
  }

  /** The outcome of an upload to a provider. */
  datatype Event = Event(name: string, ok: bool)

  function FailCount(fails: Health, name: string): nat {
    if name in fails then fails[name] else 0
  }

  /** How many failures of the provider the events hold. */
  function Failures(events: seq<Event>, name: string): nat {
    if events == [] then 0
    else Failures(events[..|events| - 1], name) + if events[|events| - 1] == Event(name, false) then 1 else 0
  }

  /** From event `from` on the provider had no success, and the event before is one or there is none. */
  ghost predicate SinceSuccess(events: seq<Event>, name: string, from: nat) {
    && from <= |events| && (from > 0 ==> events[from - 1] == Event(name, true))
    && forall j :: from <= j < |events| ==> events[j] != Event(name, true)
  }

  /** The counter of every provider is the number of its failures since its last success. */
  ghost predicate Counts(fails: Health, events: seq<Event>) {
    forall name, from: nat :: SinceSuccess(events, name, from) ==>
      FailCount(fails, name) == Failures(events[from..], name)
  }

  lemma CountsMore(fails: Health, fails': Health, events: seq<Event>, e: Event)
    requires Counts(fails, events)
    requires forall name :: name != e.name ==> FailCount(fails', name) == FailCount(fails, name)
    requires FailCount(fails', e.name) == if e.ok then 0 else FailCount(fails, e.name) + 1
    ensures Counts(fails', events + [e])
  {
    var now := events + [e];
    forall name, from: nat | SinceSuccess(now, name, from)
      ensures FailCount(fails', name) == Failures(now[from..], name) {
      if from <= |events| {
        assert now[|events|] == e;
        assert now[from..] == events[from..] + [e] && now[from..][..|now[from..]| - 1] == events[from..];
        assert forall j :: from <= j < |events| ==> events[j] == now[j];
        assert SinceSuccess(events, name, from);
      } else {
        assert now[from..] == [] && now[from - 1] == e;
      }
    }
  }

  class Pool {
    const providers: seq<Provider>
    var fails: Health
    var rr: int
    ghost var events: seq<Event>

    ghost predicate Valid()
      reads this
    {
      Counts(fails, events)
    }

    constructor (providers: seq<Provider>)
      ensures Valid() && this.providers == providers && events == [] && rr == 0
    {
      this.providers, fails, rr, events := providers, map[], 0, [];
    }

    method Candidates(size: int) returns (out: seq<Provider>)
      modifies this`rr
      ensures rr == old(rr) + 1
      ensures out == Ordered(providers, fails, size, rr)
    {
      rr := rr + 1;
      var dur: seq<Provider>, tmp: seq<Provider>, coldDur: seq<Provider>, coldTmp: seq<Provider> := [], [], [], [];
      for i := 0 to |providers|
        invariant dur == InTier(providers[..i], fails, size, 0) && tmp == InTier(providers[..i], fails, size, 1)
        invariant coldDur == InTier(providers[..i], fails, size, 2) && coldTmp == InTier(providers[..i], fails, size, 3)
      {
        var p := providers[i];
        assert providers[..i + 1][..i] == providers[..i];
        if p.maxBytes >= size {
          var healthy := Healthy(fails, p);
          if healthy && p.durable {
            dur := dur + [p];
          } else if healthy {
            tmp := tmp + [p];
          } else if p.durable {
            coldDur := coldDur + [p];
          } else {
            coldTmp := coldTmp + [p];
          }
        }
      }
      assert providers[..|providers|] == providers;
      dur := RotatedTier(dur, rr);
      tmp := RotatedTier(tmp, rr);
      out := dur + tmp + coldDur + coldTmp;
    }

    method MarkHealthy(name: string)
      requires Valid()
      modifies this`fails, this`events
      ensures Valid() && events == old(events) + [Event(name, true)]
    {
      fails := fails - {name};
      CountsMore(old(fails), fails, events, Event(name, true));
      events := events + [Event(name, true)];
    }

    method MarkFailed(name: string)
      requires Valid()
      modifies this`fails, this`events
      ensures Valid() && events == old(events) + [Event(name, false)]
    {
      fails := fails[name := (if name in fails then fails[name] else 0) + 1];
      CountsMore(old(fails), fails, events, Event(name, false));
      events := events + [Event(name, false)];
    }

    /** A provider is healthy iff fewer than three failures followed its last success, whatever else happened. */
    method IsHealthy(p: Provider) returns (healthy: bool, ghost from: nat)
      requires Valid()
      ensures SinceSuccess(events, p.name, from)
      ensures healthy <==> Failures(events[from..], p.name) < 3
      ensures healthy <==> Healthy(fails, p)
    {
      healthy := Healthy(fails, p);
      from := LastSuccess(events, p.name);
    }
  }

  /** There is always such a starting point, so the counter is determined by the events. */
  lemma {:induction false} LastSuccess(events: seq<Event>, name: string) returns (from: nat)
    ensures SinceSuccess(events, name, from)
  {
    if events == [] {
      from := 0;
    } else if events[|events| - 1] == Event(name, true) {
      from := |events|;
    } else {
      from := LastSuccess(events[..|events| - 1], name);
      assert forall j :: 0 <= j < |events| - 1 ==> events[j] == events[..|events| - 1][j];
    }
  }

  // ---------------------------------------------------------------- what the order guarantees

  lemma RotatedSame<T>(s: seq<T>, n: int)
    ensures multiset(RotatedBy(s, n)) == multiset(s)
    ensures |RotatedBy(s, n)| == |s|
  {
    if |s| > 1 {
      var k := n % |s|;
      assert s == s[..k] + s[k..];
    }
  }

  /** Place i of the rotation is place i + n of the list, counted round. */
  lemma RotatedAt<T>(s: seq<T>, n: int, i: nat)
    requires i < |s|
    ensures |RotatedBy(s, n)| == |s| && RotatedBy(s, n)[i] == s[(i + n) % |s|]
  {
    if |s| > 1 {
      var m := |s|;
      var q, k := n / m, n % m;
      assert n == q * m + k;
      if i + k < m {
        ModIs(i + n, q, i + k, m);
      } else {
        assert (q + 1) * m == q * m + m;
        ModIs(i + n, q + 1, i + k - m, m);
      }
    } else {
      ModIs(n, n, 0, 1);
    }
  }

  /** A tier lists its providers in configuration order. */
  lemma {:induction false} TierInOrder(ps: seq<Provider>, fails: Health, size: int, t: nat, i: nat, j: nat)
    returns (a: nat, b: nat)
    requires i < j < |InTier(ps, fails, size, t)|
    ensures a < b < |ps| && ps[a] == InTier(ps, fails, size, t)[i] && ps[b] == InTier(ps, fails, size, t)[j]
  {
    var n := |ps| - 1;
    if j < |InTier(ps[..n], fails, size, t)| {
      a, b := TierInOrder(ps[..n], fails, size, t, i, j);
    } else {
      a := PlaceInTier(ps[..n], fails, size, t, i);
      b := n;
    }
  }

  lemma {:induction false} PlaceInTier(ps: seq<Provider>, fails: Health, size: int, t: nat, i: nat) returns (a: nat)
    requires i < |InTier(ps, fails, size, t)|
    ensures a < |ps| && ps[a] == InTier(ps, fails, size, t)[i]
  {
    var n := |ps| - 1;
    if i < |InTier(ps[..n], fails, size, t)| {
      a := PlaceInTier(ps[..n], fails, size, t, i);
    } else {
      a := n;
    }
  }

  lemma {:induction false} FittingCounts(ps: seq<Provider>, size: int, p: Provider)
    ensures multiset(Fitting(ps, size))[p] == if p.maxBytes >= size then multiset(ps)[p] else 0
  {
    if ps != [] {
      FittingCounts(ps[..|ps| - 1], size, p);
      assert ps == ps[..|ps| - 1] + [ps[|ps| - 1]];
    }
  }

  lemma {:induction false} TiersPartition(ps: seq<Provider>, fails: Health, size: int)
    ensures multiset(InTier(ps, fails, size, 0)) + multiset(InTier(ps, fails, size, 1))
            + multiset(InTier(ps, fails, size, 2)) + multiset(InTier(ps, fails, size, 3)) == multiset(Fitting(ps, size))
  {
    if ps != [] {
      TiersPartition(ps[..|ps| - 1], fails, size);
    }
  }

  /** Candidates are exactly the providers that fit, in tier order, whatever the rotation and the failure history. */
  lemma OrderedIsPermutation(ps: seq<Provider>, fails: Health, size: int, rot: int)
    ensures multiset(Ordered(ps, fails, size, rot)) == multiset(Fitting(ps, size))
  {
    RotatedSame(InTier(ps, fails, size, 0), rot);
    RotatedSame(InTier(ps, fails, size, 1), rot);
    TiersPartition(ps, fails, size);
  }

  lemma RotatedTierOf(ps: seq<Provider>, fails: Health, size: int, t: nat, rot: int)
    ensures forall p :: p in RotatedBy(InTier(ps, fails, size, t), rot) ==> Tier(fails, p) == t
  {
    var s := InTier(ps, fails, size, t);
    RotatedSame(s, rot);
    forall p | p in RotatedBy(s, rot) ensures p in s {
      assert p in multiset(RotatedBy(s, rot));
    }
  }

  /** Each provider whose limit allows the chunk is listed as often as it is configured, and no other. */
  lemma OrderedFits(ps: seq<Provider>, fails: Health, size: int, rot: int, p: Provider)
    ensures multiset(Ordered(ps, fails, size, rot))[p] == if p.maxBytes >= size then multiset(ps)[p] else 0
  {
    OrderedIsPermutation(ps, fails, size, rot);
    FittingCounts(ps, size, p);
  }

  /** `t` is `s` turned left by n places. */
  ghost predicate Turned<T>(s: seq<T>, t: seq<T>, n: int) {
    |t| == |s| && forall i :: 0 <= i < |s| ==> t[i] == s[(i + n) % |s|]
  }

  lemma RotatedTurned<T>(s: seq<T>, n: int)
    ensures Turned(s, RotatedBy(s, n), n)
  {
    RotatedSame(s, n);
    forall i: nat | i < |s| ensures RotatedBy(s, n)[i] == s[(i + n) % |s|] { RotatedAt(s, n, i); }
  }

  /** The blocks of the list: the two healthy ones turned by `rot`, the others in configuration order. */
  lemma OrderedBlocks(ps: seq<Provider>, fails: Health, size: int, rot: int)
    returns (dur: seq<Provider>, tmp: seq<Provider>)
    ensures Ordered(ps, fails, size, rot) == dur + tmp + InTier(ps, fails, size, 2) + InTier(ps, fails, size, 3)
    ensures Turned(InTier(ps, fails, size, 0), dur, rot) && Turned(InTier(ps, fails, size, 1), tmp, rot)
  {
    dur, tmp := RotatedBy(InTier(ps, fails, size, 0), rot), RotatedBy(InTier(ps, fails, size, 1), rot);
    RotatedTurned(InTier(ps, fails, size, 0), rot);
    RotatedTurned(InTier(ps, fails, size, 1), rot);
  }

  /** Fewer than three failures since the last success. */
  ghost predicate InGoodHealth(fails: Health, p: Provider) {
    p.name in fails ==> fails[p.name] < 3
  }

  /** Healthy providers come before the others, and in both groups durable ones before temporary ones. */
  lemma HealthyFirst(ps: seq<Provider>, fails: Health, size: int, rot: int, i: nat, j: nat)
    requires i < j < |Ordered(ps, fails, size, rot)|
    ensures var p, q := Ordered(ps, fails, size, rot)[i], Ordered(ps, fails, size, rot)[j];
            && (InGoodHealth(fails, q) ==> InGoodHealth(fails, p))
            && (q.durable && (InGoodHealth(fails, p) <==> InGoodHealth(fails, q)) ==> p.durable)
  {
    OrderedByTier(ps, fails, size, rot, i, j);
  }

  lemma OrderedByTier(ps: seq<Provider>, fails: Health, size: int, rot: int, i: nat, j: nat)
    requires i <= j < |Ordered(ps, fails, size, rot)|
    ensures var out := Ordered(ps, fails, size, rot); Tier(fails, out[i]) <= Tier(fails, out[j])
  {
    RotatedTierOf(ps, fails, size, 0, rot);
    RotatedTierOf(ps, fails, size, 1, rot);
    var a, b := RotatedBy(InTier(ps, fails, size, 0), rot), RotatedBy(InTier(ps, fails, size, 1), rot);
    var c, d := InTier(ps, fails, size, 2), InTier(ps, fails, size, 3);
    FourBlocks(fails, a, b, c, d, i);
    FourBlocks(fails, a, b, c, d, j);
  }

  ghost predicate AllTier(fails: Health, s: seq<Provider>, t: nat) {
    forall p :: p in s ==> Tier(fails, p) == t
  }

  lemma FourBlocks(fails: Health, a: seq<Provider>, b: seq<Provider>, c: seq<Provider>, d: seq<Provider>, i: nat)
    requires AllTier(fails, a, 0) && AllTier(fails, b, 1) && AllTier(fails, c, 2) && AllTier(fails, d, 3)
    requires i < |a + b + c + d|
    ensures Tier(fails, (a + b + c + d)[i]) ==
            if i < |a| then 0 else if i < |a| + |b| then 1 else if i < |a| + |b| + |c| then 2 else 3
  {
    var x := (a + b + c + d)[i];
    if i < |a| {
      assert x == a[i];
    } else if i < |a| + |b| {
      assert x == b[i - |a|];
    } else if i < |a| + |b| + |c| {
      assert x == c[i - |a| - |b|];
    } else {
      assert x == d[i - |a| - |b| - |c|];
    }
  }

  /**
   If a healthy durable provider that fits would take the chunk, the final replica set of the
   upload has a durable member: here for any candidate prefix that an upload can end with.
   */
  lemma DurableKept(ps: seq<Provider>, fails: Health, size: int, rot: int, attempt: Attempt, replicas: nat,
                    tried: nat, j: nat)
    returns (i: nat)
    requires replicas >= 1 && j < |Ordered(ps, fails, size, rot)|
    requires ShortestPrefix(attempt, |Ordered(ps, fails, size, rot)|, replicas, tried)
    requires var p := Ordered(ps, fails, size, rot)[j]; Healthy(fails, p) && p.durable && attempt(j).Some?
    ensures i < tried && attempt(i).Some? && i < |Ordered(ps, fails, size, rot)|
    ensures Ordered(ps, fails, size, rot)[i].durable
  {
    if j < tried {
      i := j;
    } else {
      i := SomeTaker(attempt, tried);
      OrderedByTier(ps, fails, size, rot, i, j);
    }
  }

  lemma {:induction false} SomeTaker(attempt: Attempt, k: nat) returns (i: nat)
    requires Takes(attempt, k) > 0
    ensures i < k && attempt(i).Some?
  {
    if attempt(k - 1).Some? {
      i := k - 1;
    } else {
      i := SomeTaker(attempt, k - 1);
    }
  }
}
