/** Replica lists between the rows of the store and the shape the backend works on. */
module Conversion {
  import Storage
  import M = Metadata

  function Stored(r: M.Replica): Storage.Replica {
    Storage.Replica(r.provider, r.locator, r.token)
  }

  /** The replicas with that liveness, in row order. */
  function StoredIf(reps: seq<M.Replica>, alive: bool): seq<Storage.Replica> {
    if reps == [] then []
    else
      var front := StoredIf(reps[..|reps| - 1], alive);
      var r := reps[|reps| - 1];
      if r.alive == alive then front + [Stored(r)] else front
  }

  /** Some row with that liveness is stored as x. */
  ghost predicate HasRow(reps: seq<M.Replica>, alive: bool, x: Storage.Replica) {
    exists j :: 0 <= j < |reps| && reps[j].alive == alive && Stored(reps[j]) == x
  }

  lemma {:induction false} StoredFrom(reps: seq<M.Replica>, alive: bool)
    ensures forall x :: x in StoredIf(reps, alive) <==> HasRow(reps, alive, x)
  {
    if reps != [] {
      StoredFrom(reps[..|reps| - 1], alive);
      forall x ensures x in StoredIf(reps, alive) <==> HasRow(reps, alive, x) {
        RowMore(reps, alive, x);
      }
    }
  }

  lemma RowMore(reps: seq<M.Replica>, alive: bool, x: Storage.Replica)
    requires reps != []
    ensures var front, r := reps[..|reps| - 1], reps[|reps| - 1];
            HasRow(reps, alive, x) <==> HasRow(front, alive, x) || (r.alive == alive && Stored(r) == x)
  {
    var front := reps[..|reps| - 1];
    if HasRow(front, alive, x) {
      var j :| 0 <= j < |front| && front[j].alive == alive && Stored(front[j]) == x;
      assert reps[j] == front[j];
    }
    if HasRow(reps, alive, x) {
      var j :| 0 <= j < |reps| && reps[j].alive == alive && Stored(reps[j]) == x;
      assert j < |front| ==> front[j] == reps[j];
    }
  }

  lemma {:induction false} StoredCount(reps: seq<M.Replica>)
    ensures |StoredIf(reps, true)| + |StoredIf(reps, false)| == |reps|
  {
    if reps != [] {
      StoredCount(reps[..|reps| - 1]);
    }
  }

  /** Live replicas first, then dead ones as a fallback; none is lost. */
  method StorageReplicas(reps: seq<M.Replica>) returns (out: seq<Storage.Replica>)
    ensures out == StoredIf(reps, true) + StoredIf(reps, false)
    ensures |out| == |reps|
    ensures forall x :: x in out <==> exists j :: 0 <= j < |reps| && Stored(reps[j]) == x
    ensures AliveFirst(reps, out)
  {
    out := [];
    for j := 0 to |reps|
      invariant out == StoredIf(reps[..j], true)
    {
      assert reps[..j + 1][..j] == reps[..j];
      if reps[j].alive {
        out := out + [Stored(reps[j])];
      }
    }
    assert reps[..|reps|] == reps;
    for j := 0 to |reps|
      invariant out == StoredIf(reps, true) + StoredIf(reps[..j], false)
    {
      assert reps[..j + 1][..j] == reps[..j];
      if !reps[j].alive {
        out := out + [Stored(reps[j])];
      }
    }
    assert reps[..|reps|] == reps;
    StoredFrom(reps, true);
    StoredFrom(reps, false);
    StoredCount(reps);
    LivenessOrdered(reps);
  }

  /** The replicas that rows call alive, then those that they call dead, both in row order. */
  ghost predicate AliveFirst(reps: seq<M.Replica>, out: seq<Storage.Replica>) {
    exists at: seq<nat> ::
      && |at| == |out| && (forall i :: 0 <= i < |at| ==> at[i] < |reps| && Stored(reps[at[i]]) == out[i])
      && forall i, j :: 0 <= i < j < |at| ==>
           if reps[at[i]].alive == reps[at[j]].alive then at[i] < at[j] else reps[at[i]].alive
  }

  /** `at` lists the rows with that liveness in order. */
  ghost predicate RowsOf(reps: seq<M.Replica>, alive: bool, out: seq<Storage.Replica>, at: seq<nat>) {
    && |at| == |out|
    && (forall i :: 0 <= i < |at| ==>
          at[i] < |reps| && reps[at[i]].alive == alive && Stored(reps[at[i]]) == out[i])
    && forall i, j :: 0 <= i < j < |at| ==> at[i] < at[j]
  }

  lemma {:induction false} RowsInOrder(reps: seq<M.Replica>, alive: bool) returns (at: seq<nat>)
    ensures RowsOf(reps, alive, StoredIf(reps, alive), at)
  {
    if reps == [] {
      at := [];
    } else {
      at := RowsInOrder(reps[..|reps| - 1], alive);
      if reps[|reps| - 1].alive == alive {
        at := at + [|reps| - 1];
      }
    }
  }

  lemma LivenessOrdered(reps: seq<M.Replica>)
    ensures AliveFirst(reps, StoredIf(reps, true) + StoredIf(reps, false))
  {
    var a := RowsInOrder(reps, true);
    var b := RowsInOrder(reps, false);
    BothInOrder(reps, StoredIf(reps, true), StoredIf(reps, false), a, b);
  }

  lemma BothInOrder(reps: seq<M.Replica>, live: seq<Storage.Replica>, dead: seq<Storage.Replica>, a: seq<nat>,
                    b: seq<nat>)
    requires RowsOf(reps, true, live, a) && RowsOf(reps, false, dead, b)
    ensures AliveFirst(reps, live + dead)
  {
    var at, out := a + b, live + dead;
    assert forall i :: 0 <= i < |at| ==> at[i] < |reps| && Stored(reps[at[i]]) == out[i];
    assert forall i :: 0 <= i < |at| ==> (reps[at[i]].alive <==> i < |a|);
  }

  lemma {:induction false} StoredIfDistinct(reps: seq<M.Replica>, alive: bool)
    requires M.DistinctProviders(reps)
    ensures Storage.DistinctProviders(StoredIf(reps, alive))
  {
    if reps != [] {
      var front, r := reps[..|reps| - 1], reps[|reps| - 1];
      StoredIfDistinct(front, alive);
      StoredFrom(front, alive);
      var l := StoredIf(front, alive);
      forall n | 0 <= n < |l| ensures l[n].provider != r.provider {
        assert l[n] in l;
        var j :| 0 <= j < |front| && Stored(front[j]) == l[n];
        assert front[j] == reps[j];
      }
    }
  }

  /** Reordering by liveness keeps providers distinct. */
  lemma ConvertedDistinct(reps: seq<M.Replica>)
    requires M.DistinctProviders(reps)
    ensures Storage.DistinctProviders(StoredIf(reps, true) + StoredIf(reps, false))
  {
    var a, b := StoredIf(reps, true), StoredIf(reps, false);
    StoredIfDistinct(reps, true);
    StoredIfDistinct(reps, false);
    StoredFrom(reps, true);
    StoredFrom(reps, false);
    forall m, n | 0 <= m < |a| && 0 <= n < |b| ensures a[m].provider != b[n].provider {
      assert a[m] in a && b[n] in b;
      var i :| 0 <= i < |reps| && reps[i].alive && Stored(reps[i]) == a[m];
      var j :| 0 <= j < |reps| && !reps[j].alive && Stored(reps[j]) == b[n];
    }
  }

  /** A repaired list back to rows, every replica live. */
  method FromStorageReplicas(reps: seq<Storage.Replica>) returns (rows: seq<M.Replica>)
    ensures |rows| == |reps|
    ensures forall i :: 0 <= i < |rows| ==> rows[i].alive && Stored(rows[i]) == reps[i]
  {
    rows := [];
    for i := 0 to |reps|
      invariant |rows| == i
      invariant forall j :: 0 <= j < i ==> rows[j].alive && Stored(rows[j]) == reps[j]
    {
      rows := rows + [M.Replica(reps[i].provider, reps[i].locator, reps[i].token, true)];
    }
  }
}
