/** Verifying the replicas of one chunk, dropping dead ones and refilling from a survivor. */
module Repair {
  import opened Bytes
  import opened Storage

  datatype RepairResult = Repaired(replicas: seq<Replica>, changed: bool) | Unrecoverable | Unreadable

  /** What opening a replica leads to: an error at once, a stream that breaks, or one that ends without an error. */
  datatype Opening = Refused | Breaks | Ends(data: bytes)

  /** The hosts as seen by one repair: which replicas answer, what opening them yields, and what uploads do. */
  datatype Hosts = Hosts(alive: Replica -> bool, open: Replica -> Opening,
                         upload: (string, bytes) -> Option<Replica>)

  /**
   Blobs never change: a replica's locator determines its bytes, and an upload stores what it is given
   under the provider's name at a locator that was not in use.
   */
  ghost predicate HonestUploads(h: Hosts, blob: string -> bytes, used: set<string>) {
    forall p, d :: h.upload(p, d).Some? ==>
      var r := h.upload(p, d).value; r.provider == p && blob(r.locator) == d && r.locator !in used
  }

  /** Besides, a stream that ends without an error has delivered the whole blob. */
  ghost predicate Honest(h: Hosts, blob: string -> bytes, used: set<string>) {
    HonestUploads(h, blob, used) && forall r :: h.open(r).Ends? ==> h.open(r).data == blob(r.locator)
  }

  function Live(reps: seq<Replica>, alive: Replica -> bool): (r: seq<Replica>)
    ensures forall x :: x in r <==> x in reps && alive(x)
    ensures |r| <= |reps|
    ensures r == reps <==> forall x :: x in reps ==> alive(x)
  {
    if reps == [] then []
    else
      var last := reps[|reps| - 1];
      var front := Live(reps[..|reps| - 1], alive);
      assert reps == reps[..|reps| - 1] + [last];
      if alive(last) then front + [last] else front
  }

  function Names(reps: seq<Replica>): set<string> {
    set r | r in reps :: r.provider
  }

  function Locators(reps: seq<Replica>): set<string> {
    set r | r in reps :: r.locator
  }

  /** How many of the candidates are not yet used and would take the bytes. */
  function Takers(h: Hosts, cands: seq<string>, used: set<string>, data: bytes): nat {
    if cands == [] then 0
    else
      var c := cands[|cands| - 1];
      Takers(h, cands[..|cands| - 1], used, data) + if c !in used && h.upload(c, data).Some? then 1 else 0
  }

  lemma {:induction false} PlaceOf(reps: seq<Replica>, alive: Replica -> bool, i: nat) returns (a: nat)
    requires i < |Live(reps, alive)|
    ensures a < |reps| && reps[a] == Live(reps, alive)[i]
  {
    assert Live(reps, alive)[i] in Live(reps, alive);
    a :| 0 <= a < |reps| && reps[a] == Live(reps, alive)[i];
  }

  /** Live replicas keep their order. */
  lemma {:induction false} LiveInOrder(reps: seq<Replica>, alive: Replica -> bool, i: nat, j: nat)
    returns (a: nat, b: nat)
    requires i < j < |Live(reps, alive)|
    ensures a < b < |reps| && reps[a] == Live(reps, alive)[i] && reps[b] == Live(reps, alive)[j]
  {
    var n := |reps| - 1;
    var front := Live(reps[..n], alive);
    assert j >= |front| ==> alive(reps[n]);
    if j < |front| {
      a, b := LiveInOrder(reps[..n], alive, i, j);
    } else {
      a := PlaceOf(reps[..n], alive, i);
      b := n;
    }
  }

  lemma {:induction false} LiveNext(reps: seq<Replica>, alive: Replica -> bool, i: nat)
    requires i < |reps|
    ensures Live(reps[..i + 1], alive) == Live(reps[..i], alive) + if alive(reps[i]) then [reps[i]] else []
  {
    assert reps[..i + 1][..i] == reps[..i];
  }

  /** Verifies every replica in turn. */
  method VerifyAll(reps: seq<Replica>, alive: Replica -> bool) returns (live: seq<Replica>, dead: bool)
    ensures live == Live(reps, alive) && (dead <==> live != reps)
  {
    live, dead := [], false;
    for i := 0 to |reps|
      invariant live == Live(reps[..i], alive)
      invariant |live| <= i && (dead <==> |live| < i)
    {
      LiveNext(reps, alive, i);
      if alive(reps[i]) {
        live := live + [reps[i]];
      } else {
        dead := true;
      }
    }
    assert reps[..|reps|] == reps;
    LiveAll(reps, alive);
  }

  lemma {:induction false} LiveAll(reps: seq<Replica>, alive: Replica -> bool)
    ensures Live(reps, alive) == reps <==> |Live(reps, alive)| == |reps|
  {
    if reps != [] {
      LiveAll(reps[..|reps| - 1], alive);
      assert reps == reps[..|reps| - 1] + [reps[|reps| - 1]];
    }
  }

  /** Replica i is the first in list order that opens. */
  ghost predicate OpensAt(reps: seq<Replica>, open: Replica -> Opening, i: nat) {
    i < |reps| && !open(reps[i]).Refused? && forall j :: 0 <= j < i ==> open(reps[j]).Refused?
  }

  /** Commits to the first replica that opens, whatever becomes of its stream. */
  method OpenReplica(reps: seq<Replica>, open: Replica -> Opening) returns (o: Opening)
    ensures o.Refused? <==> forall x :: x in reps ==> open(x).Refused?
    ensures forall i: nat :: OpensAt(reps, open, i) ==> o == open(reps[i])
    ensures !o.Refused? ==> exists i: nat :: OpensAt(reps, open, i)
  {
    for i := 0 to |reps|
      invariant forall j :: 0 <= j < i ==> open(reps[j]).Refused?
    {
      if !open(reps[i]).Refused? {
        assert OpensAt(reps, open, i);
        forall j: nat | OpensAt(reps, open, j) ensures j == i { OneFirst(reps, open, i, j); }
        return open(reps[i]);
      }
    }
    o := Refused;
  }

  /** What the refilling loop guarantees about the replicas it has added so far. */
  ghost predicate Fresh(h: Hosts, cands: seq<string>, used: set<string>, data: bytes, out: seq<Replica>) {
    && DistinctProviders(out)
    && forall i :: 0 <= i < |out| ==>
         out[i].provider in cands && out[i].provider !in used && h.upload(out[i].provider, data) == Some(out[i])
  }

  lemma FreshMore(h: Hosts, cands: seq<string>, c: string, used: set<string>, data: bytes, out: seq<Replica>,
                  r: Replica)
    requires Fresh(h, cands, used, data, out) && c !in cands && c !in used && h.upload(c, data) == Some(r)
             && r.provider == c
    ensures Fresh(h, cands + [c], used, data, out + [r])
  {
  }

  lemma FreshKept(h: Hosts, cands: seq<string>, c: string, used: set<string>, data: bytes, out: seq<Replica>)
    requires Fresh(h, cands, used, data, out) && c !in cands
    ensures Fresh(h, cands + [c], used, data, out)
    ensures c !in Names(out)
  {
  }

  lemma TakersMore(h: Hosts, cands: seq<string>, c: string, used: set<string>, data: bytes)
    ensures Takers(h, cands + [c], used, data)
         == Takers(h, cands, used, data) + if c !in used && h.upload(c, data).Some? then 1 else 0
  {
    assert (cands + [c])[..|cands|] == cands;
  }

  /** Every candidate is in use, refuses the bytes, or is among `have`. */
  ghost predicate NoOneElse(h: Hosts, cands: seq<string>, used: set<string>, data: bytes, have: seq<Replica>) {
    forall c :: c in cands ==> c in used || h.upload(c, data).None? || (exists x :: x in have && x.provider == c)
  }

  /** No unused candidate that would take the bytes was passed over for a later one. */
  ghost predicate InCandidateOrder(h: Hosts, cands: seq<string>, used: set<string>, data: bytes, out: seq<Replica>) {
    forall i: nat, x :: i < |cands| && x in out && x.provider == cands[i] ==> NoOneElse(h, cands[..i], used, data, out)
  }

  lemma NoOneElseMore(h: Hosts, cands: seq<string>, c: string, used: set<string>, data: bytes, out: seq<Replica>,
                      r: Replica)
    requires NoOneElse(h, cands, used, data, out)
    ensures NoOneElse(h, cands, used, data, out + [r])
    ensures c in used || h.upload(c, data).None? ==> NoOneElse(h, cands + [c], used, data, out)
    ensures r.provider == c ==> NoOneElse(h, cands + [c], used, data, out + [r])
  {
    forall d | d in cands && d !in used && h.upload(d, data).Some?
      ensures exists x :: x in out + [r] && x.provider == d {
      var x :| x in out && x.provider == d;
      assert x in out + [r];
    }
    assert r in out + [r];
  }

  lemma InOrderMore(h: Hosts, cands: seq<string>, c: string, used: set<string>, data: bytes, out: seq<Replica>,
                    r: Replica)
    requires InCandidateOrder(h, cands, used, data, out) && c !in cands && NoOneElse(h, cands, used, data, out)
    requires r.provider == c && forall x :: x in out ==> x.provider in cands
    ensures InCandidateOrder(h, cands + [c], used, data, out + [r])
  {
    var all := cands + [c];
    forall i: nat, x | i < |all| && x in out + [r] && x.provider == all[i]
      ensures NoOneElse(h, all[..i], used, data, out + [r])
    {
      NoOneElseMore(h, cands, c, used, data, out, r);
      assert forall d :: d in all[..i] ==> d in cands || i > |cands|;
    }
  }

  lemma InOrderKept(h: Hosts, cands: seq<string>, c: string, used: set<string>, data: bytes, out: seq<Replica>)
    requires InCandidateOrder(h, cands, used, data, out) && forall x :: x in out ==> x.provider in cands
    requires c !in cands
    ensures InCandidateOrder(h, cands + [c], used, data, out)
  {
    var all := cands + [c];
    forall i: nat, x | i < |all| && x in out && x.provider == all[i] ensures NoOneElse(h, all[..i], used, data, out) {
      assert i < |cands| ==> all[..i] == cands[..i];
    }
  }

  /** Uploads to candidates that are not in use yet, one after the other, until `need` took the bytes. */
  method ReplicateExtra(h: Hosts, cands: seq<string>, used: set<string>, data: bytes, need: nat)
    returns (out: seq<Replica>)
    requires NoDup(cands)
    requires forall p :: h.upload(p, data).Some? ==> h.upload(p, data).value.provider == p
    ensures |out| == Min(need, Takers(h, cands, used, data))
    ensures Fresh(h, cands, used, data, out)
    ensures |out| <= need && (|out| < need ==> NoOneElse(h, cands, used, data, out))
    ensures InCandidateOrder(h, cands, used, data, out)
  {
    out := [];
    var inUse := used;
    var i := 0;
    while i < |cands|
      invariant 0 <= i <= |cands|
      invariant Filling(h, cands[..i], used, data, need, out)
      invariant inUse == used + Names(out)
    {
      var c := cands[i];
      assert c !in cands[..i];
      assert cands[..i + 1] == cands[..i] + [c];
      FreshNames(h, cands[..i], c, used, data, need, out);
      if |out| < need && c !in inUse {
        var r := h.upload(c, data);
        if r.Some? {
          FillTaken(h, cands[..i], c, used, data, need, out, r.value);
          assert Names(out + [r.value]) == Names(out) + {c};
          out := out + [r.value];
          inUse := inUse + {c};
        } else {
          FillSkipped(h, cands[..i], c, used, data, need, out);
        }
      } else {
        FillSkipped(h, cands[..i], c, used, data, need, out);
      }
      i := i + 1;
    }
    assert cands[..|cands|] == cands;
  }

  /** Where the refilling loop stands after the candidates `cands`. */
  ghost predicate Filling(h: Hosts, cands: seq<string>, used: set<string>, data: bytes, need: nat, out: seq<Replica>) {
    && |out| == Min(need, Takers(h, cands, used, data)) && Fresh(h, cands, used, data, out)
    && (|out| < need ==> NoOneElse(h, cands, used, data, out))
    && InCandidateOrder(h, cands, used, data, out)
  }

  lemma FreshNames(h: Hosts, cands: seq<string>, c: string, used: set<string>, data: bytes, need: nat,
                   out: seq<Replica>)
    requires Filling(h, cands, used, data, need, out) && c !in cands
    ensures c !in Names(out)
  {
    FreshKept(h, cands, c, used, data, out);
  }

  lemma FillTaken(h: Hosts, cands: seq<string>, c: string, used: set<string>, data: bytes, need: nat,
                  out: seq<Replica>, r: Replica)
    requires Filling(h, cands, used, data, need, out) && c !in cands && c !in used && |out| < need
    requires h.upload(c, data) == Some(r) && r.provider == c
    ensures Filling(h, cands + [c], used, data, need, out + [r])
  {
    TakersMore(h, cands, c, used, data);
    FreshMore(h, cands, c, used, data, out, r);
    InOrderMore(h, cands, c, used, data, out, r);
    NoOneElseMore(h, cands, c, used, data, out, r);
  }

  lemma FillSkipped(h: Hosts, cands: seq<string>, c: string, used: set<string>, data: bytes, need: nat,
                    out: seq<Replica>)
    requires Filling(h, cands, used, data, need, out) && c !in cands
    requires |out| >= need || c in used || h.upload(c, data).None?
    ensures Filling(h, cands + [c], used, data, need, out)
  {
    TakersMore(h, cands, c, used, data);
    FreshKept(h, cands, c, used, data, out);
    InOrderKept(h, cands, c, used, data, out);
    if |out| < need {
      NoOneElseMore(h, cands, c, used, data, out, Replica(c, "", ""));
    }
  }

  lemma {:induction false} LiveDistinct(reps: seq<Replica>, alive: Replica -> bool)
    ensures DistinctProviders(reps) ==> DistinctProviders(Live(reps, alive))
  {
    if reps != [] && DistinctProviders(reps) {
      var front := reps[..|reps| - 1];
      LiveDistinct(front, alive);
      var l := Live(front, alive);
      forall k | 0 <= k < |l| ensures l[k].provider != reps[|reps| - 1].provider {
        assert l[k] in l;
        var i :| 0 <= i < |front| && front[i] == l[k];
      }
    }
  }

  /** The refilled list: the bytes read in all that was added, distinct providers, and nothing dead among it. */
  lemma ExtraHolds(h: Hosts, cands: seq<string>, reps: seq<Replica>, live: seq<Replica>, extra: seq<Replica>,
                   blob: string -> bytes, data: bytes)
    requires HonestUploads(h, blob, Locators(reps)) && Fresh(h, cands, Names(live), data, extra)
    requires live == Live(reps, h.alive)
    ensures forall x :: x in extra ==> blob(x.locator) == data
    ensures DistinctProviders(live) ==> DistinctProviders(live + extra)
    ensures live != reps ==> live + extra != reps
    ensures live == reps && extra == [] <==> live + extra == reps
  {
    forall x | x in extra
      ensures blob(x.locator) == data && x.locator !in Locators(reps)
    {
      assert h.upload(x.provider, data) == Some(x);
    }
    forall i, j | 0 <= i < |live| && 0 <= j < |extra|
      ensures live[i].provider != extra[j].provider
    {
      assert live[i] in live;
    }
    if live != reps {
      var x :| x in reps && !h.alive(x);
      assert x.locator in Locators(reps);
      assert x !in live + extra;
    }
  }

  /** The stream of the first replica that opens ends without an error. */
  ghost predicate LeadEnds(live: seq<Replica>, open: Replica -> Opening) {
    exists i: nat :: OpensAt(live, open, i) && open(live[i]).Ends?
  }

  /** No live replica, or too few and the first one that opens, if any, breaks. */
  ghost predicate Unsavable(live: seq<Replica>, h: Hosts, replicas: nat) {
    live == [] || (|live| < replicas && !LeadEnds(live, h.open))
  }

  ghost predicate SomeEnds(live: seq<Replica>, open: Replica -> Opening) {
    exists i :: 0 <= i < |live| && open(live[i]).Ends?
  }

  lemma {:induction false} FirstOpened(reps: seq<Replica>, open: Replica -> Opening) returns (i: nat)
    requires exists x :: x in reps && !open(x).Refused?
    ensures OpensAt(reps, open, i)
  {
    if !open(reps[0]).Refused? {
      i := 0;
    } else {
      i := FirstOpened(reps[1..], open);
      i := i + 1;
      assert forall j :: 1 <= j < i ==> reps[j] == reps[1..][j - 1];
    }
  }

  lemma OneFirst(reps: seq<Replica>, open: Replica -> Opening, i: nat, j: nat)
    requires OpensAt(reps, open, i) && OpensAt(reps, open, j)
    ensures i == j
  {
  }

  /** A repair is missed although the chunk could be read exactly when the first replica that opens breaks. */
  lemma RepairMissed(live: seq<Replica>, h: Hosts, replicas: nat)
    requires SomeEnds(live, h.open)
    ensures Unsavable(live, h, replicas) <==>
            |live| < replicas && exists i: nat :: OpensAt(live, h.open, i) && h.open(live[i]).Breaks?
  {
    var k :| 0 <= k < |live| && h.open(live[k]).Ends?;
    assert live[k] in live;
    var i := FirstOpened(live, h.open);
    forall j: nat | OpensAt(live, h.open, j) ensures j == i {
      OneFirst(live, h.open, i, j);
    }
  }

  /** Such a chunk: the first of two live replicas breaks, the second is whole, and three are wanted. */
  lemma BrokenLead(a: Replica, b: Replica, h: Hosts)
    requires h.open(a).Breaks? && h.open(b).Ends?
    ensures SomeEnds([a, b], h.open) && Unsavable([a, b], h, 3)
  {
    assert [a, b][1] == b;
    assert OpensAt([a, b], h.open, 0);
    RepairMissed([a, b], h, 3);
  }

  /** How many replicas there are after the refill: the live ones, topped up as far as providers take it. */
  ghost function Refilled(live: seq<Replica>, h: Hosts, cands: seq<string>, replicas: nat, content: bytes): int {
    Max(|live|, Min(replicas, |live| + Takers(h, cands, Names(live), content)))
  }

  /**
   Every replica of the list holds `content`, iff nothing was added or the bytes that were read are the content:
   the read is not compared with the size of the chunk.
   */
  ghost predicate HoldsIff(list: seq<Replica>, live: nat, blob: string -> bytes, read: bytes, content: bytes) {
    (forall x :: x in list ==> blob(x.locator) == content) <==> |list| == live || read == content
  }

  lemma ListHolds(live: seq<Replica>, extra: seq<Replica>, blob: string -> bytes, read: bytes, content: bytes)
    requires forall x :: x in live ==> blob(x.locator) == content
    requires forall x :: x in extra ==> blob(x.locator) == read
    ensures HoldsIff(live + extra, |live|, blob, read, content)
  {
    var list := live + extra;
    if extra != [] {
      assert extra[0] in extra && extra[0] in list;
    }
    assert forall x :: x in list <==> x in live || x in extra;
  }

  /** What follows the live replicas are uploads of the bytes read, to candidates that held none. */
  ghost predicate Added(h: Hosts, cands: seq<string>, live: seq<Replica>, list: seq<Replica>, read: bytes) {
    forall j :: |live| <= j < |list| ==>
      && list[j].provider in cands && list[j].provider !in Names(live)
      && h.upload(list[j].provider, read) == Some(list[j])
  }

  /** `read` is what the first replica that opens delivers, if one is opened. */
  method RepairChunk(h: Hosts, reps: seq<Replica>, cands: seq<string>, replicas: nat, ghost blob: string -> bytes,
                     ghost content: bytes)
    returns (r: RepairResult, ghost read: bytes)
    requires replicas >= 1 && NoDup(cands) && HonestUploads(h, blob, Locators(reps))
    requires forall x :: x in reps ==> blob(x.locator) == content
    ensures r.Unrecoverable? <==> Live(reps, h.alive) == []
    ensures !r.Repaired? <==> Unsavable(Live(reps, h.alive), h, replicas)
    ensures r.Repaired? && |Live(reps, h.alive)| < replicas ==>
              forall i: nat :: OpensAt(Live(reps, h.alive), h.open, i) ==>
                h.open(Live(reps, h.alive)[i]) == Ends(read)
    ensures r.Repaired? ==>
              var live := Live(reps, h.alive);
              && live <= r.replicas
              && |r.replicas| == Refilled(live, h, cands, replicas, read)
              && |r.replicas| <= Max(|live|, replicas) && Added(h, cands, live, r.replicas, read)
              && (r.changed <==> live != reps || |r.replicas| > |live|)
              && (|r.replicas| < replicas ==> NoOneElse(h, cands, Names(live), read, r.replicas))
              && HoldsIff(r.replicas, |live|, blob, read, content)
              && (DistinctProviders(reps) ==> DistinctProviders(r.replicas))
              && (r.changed <==> r.replicas != reps)
    ensures |reps| >= replicas && (forall x :: x in reps ==> h.alive(x)) ==> r == Repaired(reps, false)
  {
    read := content;
    var live, dead := VerifyAll(reps, h.alive);
    if live == [] {
      return Unrecoverable, read;
    }
    if |live| >= replicas && !dead {
      return Repaired(reps, false), read;
    }
    LiveDistinct(reps, h.alive);
    var newReps := live;
    if |newReps| < replicas {
      var refilled;
      refilled, read := Refill(h, reps, live, cands, replicas, blob, content);
      if refilled.None? {
        return Unreadable, read;
      }
      newReps := refilled.value;
    } else {
      ListHolds(live, [], blob, read, content);
      assert live + [] == live;
    }
    r := Repaired(newReps, dead || |newReps| != |reps|);
  }

  lemma LongerList(h: Hosts, cands: seq<string>, used: set<string>, data: bytes, front: seq<Replica>, out: seq<Replica>)
    ensures NoOneElse(h, cands, used, data, out) ==> NoOneElse(h, cands, used, data, front + out)
  {
    assert forall x :: x in out ==> x in front + out;
  }

  lemma AddedIs(h: Hosts, cands: seq<string>, live: seq<Replica>, extra: seq<Replica>, read: bytes)
    requires Fresh(h, cands, Names(live), read, extra)
    ensures Added(h, cands, live, live + extra, read)
  {
  }

  /** Reads the chunk from the first live replica that opens and uploads it to as many more as are wanted. */
  method Refill(h: Hosts, ghost reps: seq<Replica>, live: seq<Replica>, cands: seq<string>, replicas: nat,
                ghost blob: string -> bytes, ghost content: bytes)
    returns (out: Option<seq<Replica>>, ghost read: bytes)
    requires NoDup(cands) && HonestUploads(h, blob, Locators(reps)) && live == Live(reps, h.alive) && |live| < replicas
    requires forall x :: x in live ==> blob(x.locator) == content
    ensures out.Some? <==> LeadEnds(live, h.open)
    ensures out.Some? ==> forall i: nat :: OpensAt(live, h.open, i) ==> h.open(live[i]) == Ends(read)
    ensures out.Some? ==> live <= out.value && |out.value| == Refilled(live, h, cands, replicas, read)
    ensures out.Some? ==> |out.value| <= replicas && Added(h, cands, live, out.value, read)
    ensures out.Some? && |out.value| < replicas ==> NoOneElse(h, cands, Names(live), read, out.value)
    ensures out.Some? ==> HoldsIff(out.value, |live|, blob, read, content)
    ensures out.Some? ==> (DistinctProviders(live) ==> DistinctProviders(out.value))
    ensures out.Some? ==> (out.value == reps <==> live == reps && |out.value| == |live|)
  {
    read := content;
    var lead := OpenReplica(live, h.open);
    if !lead.Ends? {
      return None, read;
    }
    read := lead.data;
    var list := Extend(h, reps, live, cands, replicas, blob, content, lead.data);
    out := Some(list);
  }

  method Extend(h: Hosts, ghost reps: seq<Replica>, live: seq<Replica>, cands: seq<string>, replicas: nat,
                ghost blob: string -> bytes, ghost content: bytes, data: bytes)
    returns (list: seq<Replica>)
    requires NoDup(cands) && HonestUploads(h, blob, Locators(reps)) && live == Live(reps, h.alive) && |live| < replicas
    requires forall x :: x in live ==> blob(x.locator) == content
    ensures live <= list && |list| == Refilled(live, h, cands, replicas, data)
    ensures |list| <= replicas && Added(h, cands, live, list, data)
    ensures |list| < replicas ==> NoOneElse(h, cands, Names(live), data, list)
    ensures HoldsIff(list, |live|, blob, data, content)
    ensures DistinctProviders(live) ==> DistinctProviders(list)
    ensures list == reps <==> live == reps && |list| == |live|
  {
    var extra := ReplicateExtra(h, cands, Names(live), data, replicas - |live|);
    ExtraHolds(h, cands, reps, live, extra, blob, data);
    ListHolds(live, extra, blob, data, content);
    LongerList(h, cands, Names(live), data, live, extra);
    AddedIs(h, cands, live, extra, data);
    list := live + extra;
  }

  /** Nothing is added to a chunk with enough live replicas, whatever bytes one asks about. */
  lemma EnoughLive(live: seq<Replica>, h: Hosts, cands: seq<string>, replicas: nat, read: bytes, content: bytes)
    requires |live| >= replicas
    ensures Refilled(live, h, cands, replicas, read) == Refilled(live, h, cands, replicas, content) == |live|
  {
  }

  /** With hosts that deliver whole blobs, a repaired chunk holds its content everywhere. */
  lemma WholeReads(h: Hosts, live: seq<Replica>, replicas: nat, blob: string -> bytes, used: set<string>, read: bytes,
                   content: bytes)
    requires Honest(h, blob, used) && (forall x :: x in live ==> blob(x.locator) == content)
    requires live != [] && |live| < replicas && !Unsavable(live, h, replicas)
    requires forall i: nat :: OpensAt(live, h.open, i) ==> h.open(live[i]) == Ends(read)
    ensures read == content
  {
    var i: nat :| OpensAt(live, h.open, i) && h.open(live[i]).Ends?;
    assert live[i] in live;
  }
}
