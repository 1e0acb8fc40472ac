/**
 Replicating one chunk, and racing its replicas on read.  The goroutines only meet in the loop
 that receives their results, so each operation is that loop, with the order in which results
 arrive (and hedge timers and cancellation fire) left open: the contracts hold for every schedule.
 */
module Replication {
  import opened Bytes
  import opened Storage

  // ---------------------------------------------------------------- counting successes

  /** What happens when candidate i is tried. */
  type Attempt = nat -> Option<Replica>

  /** How many of the first k candidates would take the chunk. */
  function Takes(attempt: Attempt, k: nat): nat {
    if k == 0 then 0 else Takes(attempt, k - 1) + if attempt(k - 1).Some? then 1 else 0
  }

  lemma {:induction false} TakesMono(attempt: Attempt, j: nat, k: nat)
    requires j <= k
    ensures Takes(attempt, j) <= Takes(attempt, k)
    decreases k - j
  {
    if j < k {
      TakesMono(attempt, j, k - 1);
    }
  }

  lemma TakesNone(attempt: Attempt, k: nat)
    requires Takes(attempt, k) == 0
    ensures forall i: nat :: i < k ==> attempt(i).None?
  {
    forall i: nat | i < k ensures attempt(i).None? {
      TakesMono(attempt, i + 1, k);
    }
  }

  /** The number of takers, counted without recursion. */
  lemma {:induction false} TakesCounts(attempt: Attempt, k: nat)
    ensures Takes(attempt, k) == |set i: nat | i < k && attempt(i).Some?|
  {
    if k > 0 {
      TakesCounts(attempt, k - 1);
      var before, now := set i: nat | i < k - 1 && attempt(i).Some?, set i: nat | i < k && attempt(i).Some?;
      if attempt(k - 1).Some? {
        assert now == before + {k - 1};
      } else {
        assert now == before;
      }
    }
  }

  /** k is the shortest candidate prefix that holds `want` takers, or all n candidates when there are not that many. */
  ghost predicate ShortestPrefix(attempt: Attempt, n: nat, want: nat, k: nat) {
    && k <= n
    && Takes(attempt, k) <= want
    && (k < n ==> Takes(attempt, k) == want)
    && (k > 0 ==> Takes(attempt, k - 1) < want)
  }

  /** The shortest prefix is unique, so the outcome of an upload does not depend on the schedule. */
  lemma ShortestPrefixUnique(attempt: Attempt, n: nat, want: nat, k: nat, m: nat)
    requires ShortestPrefix(attempt, n, want, k) && ShortestPrefix(attempt, n, want, m)
    ensures k == m
  {
    if k < m {
      TakesMono(attempt, k, m - 1);
    } else if m < k {
      TakesMono(attempt, m, k - 1);
    }
  }

  // ---------------------------------------------------------------- launched candidates

  datatype Status = Pending | Accepted | Refused

  function Tally(st: seq<Status>, x: Status): nat {
    if st == [] then 0 else Tally(st[..|st| - 1], x) + if st[|st| - 1] == x then 1 else 0
  }

  lemma TallyPush(st: seq<Status>, y: Status, x: Status)
    ensures Tally(st + [y], x) == Tally(st, x) + if y == x then 1 else 0
  {
    assert (st + [y])[..|st|] == st;
  }

  lemma {:induction false} TallySet(st: seq<Status>, i: nat, y: Status, x: Status)
    requires i < |st|
    ensures Tally(st[i := y], x) == Tally(st, x) - (if st[i] == x then 1 else 0) + if y == x then 1 else 0
    decreases |st|
  {
    var front := st[..|st| - 1];
    if i == |st| - 1 {
      assert st[i := y][..|st| - 1] == front;
    } else {
      assert st[i := y][..|st| - 1] == front[i := y];
      TallySet(front, i, y, x);
    }
  }

  lemma {:induction false} TallyTotal(st: seq<Status>)
    ensures Tally(st, Pending) + Tally(st, Accepted) + Tally(st, Refused) == |st|
  {
    if st != [] {
      TallyTotal(st[..|st| - 1]);
    }
  }

  lemma {:induction false} TallyFinds(st: seq<Status>, x: Status) returns (i: nat)
    requires Tally(st, x) > 0
    ensures i < |st| && st[i] == x
  {
    if st[|st| - 1] == x {
      i := |st| - 1;
    } else {
      i := TallyFinds(st[..|st| - 1], x);
    }
  }

  lemma {:induction false} TallyHas(st: seq<Status>, i: nat, x: Status)
    requires i < |st| && st[i] == x
    ensures Tally(st, x) > 0
  {
    if i < |st| - 1 {
      TallyHas(st[..|st| - 1], i, x);
    }
  }

  /** Every answer received is the candidate's own. */
  ghost predicate Answers(attempt: Attempt, st: seq<Status>) {
    forall i: nat :: i < |st| ==> (st[i].Accepted? ==> attempt(i).Some?) && (st[i].Refused? ==> attempt(i).None?)
  }

  /** Failures seen leave room for that many fewer takers; with no answer outstanding the count is exact. */
  lemma {:induction false} TakesBound(attempt: Attempt, st: seq<Status>)
    requires Answers(attempt, st)
    ensures Takes(attempt, |st|) + Tally(st, Refused) <= |st|
    ensures Tally(st, Pending) == 0 ==> Takes(attempt, |st|) == Tally(st, Accepted)
  {
    if st != [] {
      TakesBound(attempt, st[..|st| - 1]);
    }
  }

  /** Every failure brings in one more candidate, never beyond the prefix that holds R takers. */
  ghost predicate Topped(attempt: Attempt, n: nat, replicas: nat, st: seq<Status>) {
    && |st| == Min(n, replicas + Tally(st, Refused))
    && (|st| > 0 ==> Takes(attempt, |st| - 1) < replicas)
  }

  ghost predicate Launched(attempt: Attempt, n: nat, replicas: nat, st: seq<Status>) {
    Answers(attempt, st) && Topped(attempt, n, replicas, st)
  }

  lemma {:induction false} AllPending(k: nat)
    ensures var st := seq(k, _ => Pending);
            Tally(st, Pending) == k && Tally(st, Accepted) == 0 && Tally(st, Refused) == 0
  {
    if k > 0 {
      AllPending(k - 1);
      assert seq(k, _ => Pending)[..k - 1] == seq(k - 1, _ => Pending);
    }
  }

  lemma FirstLaunch(attempt: Attempt, n: nat, replicas: nat)
    requires replicas > 0
    ensures var st := seq(Min(n, replicas), _ => Pending);
            Launched(attempt, n, replicas, st) && Tally(st, Accepted) == 0
  {
    var k := Min(n, replicas);
    AllPending(k);
    if k > 0 {
      TakesBound(attempt, seq(k - 1, _ => Pending));
    }
  }

  lemma OnSuccess(attempt: Attempt, n: nat, replicas: nat, st: seq<Status>, i: nat)
    requires Launched(attempt, n, replicas, st) && i < |st| && st[i].Pending? && attempt(i).Some?
    ensures Launched(attempt, n, replicas, st[i := Accepted])
    ensures Tally(st[i := Accepted], Accepted) == Tally(st, Accepted) + 1
    ensures Tally(st[i := Accepted], Pending) == Tally(st, Pending) - 1
  {
    TallySet(st, i, Accepted, Refused);
    TallySet(st, i, Accepted, Accepted);
    TallySet(st, i, Accepted, Pending);
  }

  /** A failure: fewer than R have taken the chunk so far, and if there is a next candidate it starts. */
  lemma OnFailure(attempt: Attempt, n: nat, replicas: nat, st: seq<Status>, i: nat)
    requires Launched(attempt, n, replicas, st) && i < |st| && st[i].Pending? && attempt(i).None?
    ensures Tally(st, Accepted) < replicas
    ensures var failed := st[i := Refused];
            && Launched(attempt, n, replicas, if |st| < n then failed + [Pending] else failed)
            && Tally(failed + [Pending], Accepted) == Tally(failed, Accepted) == Tally(st, Accepted)
            && Tally(failed, Pending) == Tally(st, Pending) - 1
            && Tally(failed + [Pending], Pending) == Tally(st, Pending)
  {
    var failed := st[i := Refused];
    TallySet(st, i, Refused, Refused);
    TallySet(st, i, Refused, Accepted);
    TallySet(st, i, Refused, Pending);
    TallyPush(failed, Pending, Refused);
    TallyPush(failed, Pending, Accepted);
    TallyPush(failed, Pending, Pending);
    TallyTotal(st);
    TallyHas(st, i, Pending);
    TakesBound(attempt, failed);
  }

  /** Nothing is outstanding: the takers are those of the shortest prefix. */
  lemma AllAnswered(attempt: Attempt, n: nat, replicas: nat, st: seq<Status>)
    requires Launched(attempt, n, replicas, st) && Tally(st, Pending) == 0
    ensures ShortestPrefix(attempt, n, replicas, |st|)
    ensures Takes(attempt, |st|) == Tally(st, Accepted)
    ensures forall i: nat :: i < |st| ==> (st[i].Accepted? <==> attempt(i).Some?)
  {
    TakesBound(attempt, st);
    TallyTotal(st);
    forall i: nat | i < |st| ensures !st[i].Pending? {
      if st[i].Pending? { TallyHas(st, i, Pending); }
    }
  }

  // ---------------------------------------------------------------- uploading one chunk

  datatype ChunkResult = Stored(replicas: seq<Replica>) | NoCandidates | AllFailed | Canceled

  /** `reps` are the replicas of the candidates `ids`, in that order. */
  ghost predicate ReplicasOf(attempt: Attempt, ids: seq<nat>, reps: seq<Replica>) {
    |reps| == |ids| && forall j :: 0 <= j < |ids| ==> attempt(ids[j]) == Some(reps[j])
  }

  /** `ids` lists the candidates marked Accepted, each once. */
  ghost predicate Lists(ids: seq<nat>, st: seq<Status>) {
    NoDup(ids) && |ids| == Tally(st, Accepted) && forall i: nat :: i in ids <==> i < |st| && st[i].Accepted?
  }

  lemma ListsTaken(attempt: Attempt, n: nat, replicas: nat, ids: seq<nat>, st: seq<Status>, i: nat)
    requires Launched(attempt, n, replicas, st) && i < |st| && st[i].Pending? && attempt(i).Some? && Lists(ids, st)
    ensures Lists(ids + [i], st[i := Accepted])
  {
    OnSuccess(attempt, n, replicas, st, i);
  }

  lemma ListsFailed(attempt: Attempt, n: nat, replicas: nat, ids: seq<nat>, st: seq<Status>, i: nat)
    requires Launched(attempt, n, replicas, st) && i < |st| && st[i].Pending? && attempt(i).None? && Lists(ids, st)
    ensures Lists(ids, st[i := Refused]) && Lists(ids, st[i := Refused] + [Pending])
  {
    OnFailure(attempt, n, replicas, st, i);
  }

  function SyncCount(replicas: nat, syncReplicas: int): nat {
    if syncReplicas < 1 || syncReplicas > replicas then replicas else syncReplicas
  }

  /** Receives one result, whichever comes first; a failure launches the next candidate if `topUp` allows it. */
  method Collect(n: nat, attempt: Attempt, ghost replicas: nat, st: seq<Status>, topUp: bool, ghost ids: seq<nat>)
    returns (st': seq<Status>, got: Option<Replica>, ghost i: nat)
    requires Launched(attempt, n, replicas, st) && Tally(st, Pending) > 0 && Lists(ids, st)
    requires |ids| < replicas ==> topUp
    ensures Launched(attempt, n, replicas, st') && |st| <= |st'|
    ensures got == attempt(i)
    ensures got.Some? ==> |st'| == |st| && Lists(ids + [i], st') && Tally(st', Pending) == Tally(st, Pending) - 1
    ensures got.None? ==> Lists(ids, st') && |ids| < replicas
    ensures got.None? ==>
              && Tally(st', Pending) == Tally(st, Pending) - (if |st| < n then 0 else 1)
              && |st'| == if |st| < n then |st| + 1 else |st|
  {
    ghost var w := TallyFinds(st, Pending);
    var k :| 0 <= k < |st| && st[k].Pending?;
    i := k;
    got := attempt(k);
    if got.Some? {
      OnSuccess(attempt, n, replicas, st, k);
      ListsTaken(attempt, n, replicas, ids, st, k);
      st' := st[k := Accepted];
    } else {
      OnFailure(attempt, n, replicas, st, k);
      ListsFailed(attempt, n, replicas, ids, st, k);
      st' := if topUp && |st| < n then st[k := Refused] + [Pending] else st[k := Refused];
    }
  }

  /**
   Uploads a chunk to up to `replicas` of n candidates: the first successes are returned, the rest
   are handed over later (`extras`); every failure brings in the next candidate.

   For every order of completion, `first` and `later` are together exactly the takers of the
   shortest candidate prefix that holds `replicas` of them, each once; and only that prefix was tried.
   */
  method UploadChunk(n: nat, attempt: Attempt, replicas: nat, syncReplicas: int, cancellable: bool)
    returns (r: ChunkResult, extras: seq<Replica>, tried: nat, ghost first: seq<nat>, ghost later: seq<nat>)
    requires replicas >= 1
    ensures r.NoCandidates? <==> n == 0
    ensures r.AllFailed? ==> n > 0 && forall i: nat :: i < n ==> attempt(i).None?
    ensures r.Canceled? ==> cancellable
    ensures r.Stored? ==>
              && ReplicasOf(attempt, first, r.replicas) && ReplicasOf(attempt, later, extras)
              && ShortestPrefix(attempt, n, replicas, tried)
              && NoDup(first + later)
              && (forall i: nat :: i in first + later <==> i < tried && attempt(i).Some?)
              && |first + later| == Takes(attempt, tried)
              && |first| == Min(SyncCount(replicas, syncReplicas), Takes(attempt, tried)) > 0
              && (SyncCount(replicas, syncReplicas) == replicas ==> extras == [])
    ensures !r.Stored? ==> extras == []
    ensures r.Stored? && 1 <= syncReplicas <= replicas ==> |r.replicas| == Min(syncReplicas, |first + later|)
    ensures r.Stored? && !(1 <= syncReplicas < replicas) ==> |r.replicas| == |first + later| && extras == []
    ensures r.Stored? ==> |first + later| <= replicas && (tried < n ==> |first + later| == replicas)
  {
    if n == 0 {
      return NoCandidates, [], 0, [], [];
    }
    var sync := SyncCount(replicas, syncReplicas);
    var st := seq(Min(n, replicas), _ => Pending);
    FirstLaunch(attempt, n, replicas);
    AllPending(Min(n, replicas));
    var synced: seq<Replica> := [];
    var inflight := Min(n, replicas);
    first := [];
    while |synced| < sync && inflight > 0
      invariant Launched(attempt, n, replicas, st) && inflight == Tally(st, Pending)
      invariant Lists(first, st) && ReplicasOf(attempt, first, synced) && |synced| <= sync
      decreases n - |st|, inflight
    {
      var done: bool := *;
      if cancellable && done {
        return Canceled, [], |st|, first, [];
      }
      var was := |st|;
      var got; ghost var i;
      st, got, i := Collect(n, attempt, replicas, st, true, first);
      if got.Some? {
        synced, first := synced + [got.value], first + [i];
        inflight := inflight - 1;
      } else if |st| == was {
        inflight := inflight - 1;
      }
    }
    if synced == [] {
      AllAnswered(attempt, n, replicas, st);
      TakesNone(attempt, |st|);
      return AllFailed, [], |st|, [], [];
    }
    TallyTotal(st);
    extras, st, later := Background(n, attempt, replicas, st, inflight, |synced|, first);
    AllAnswered(attempt, n, replicas, st);
    return Stored(synced), extras, |st|, first, later;
  }

  /** The background phase: drains what is in flight and tops up on failure. */
  method Background(n: nat, attempt: Attempt, replicas: nat, st0: seq<Status>, inflight: nat, synced: nat,
                    ghost first: seq<nat>)
    returns (extras: seq<Replica>, st: seq<Status>, ghost later: seq<nat>)
    requires Launched(attempt, n, replicas, st0) && inflight == Tally(st0, Pending)
    requires Lists(first, st0) && synced == |first|
    ensures Launched(attempt, n, replicas, st) && Tally(st, Pending) == 0
    ensures Lists(first + later, st) && ReplicasOf(attempt, later, extras)
    ensures inflight == 0 ==> later == []
  {
    st, extras, later := st0, [], [];
    var remaining, total := inflight, synced;
    while remaining > 0
      invariant Launched(attempt, n, replicas, st) && remaining == Tally(st, Pending)
      invariant Lists(first + later, st) && ReplicasOf(attempt, later, extras) && total == |first + later|
      invariant inflight == 0 ==> later == [] && remaining == 0
      decreases n - |st|, remaining
    {
      var was := |st|;
      var got; ghost var i;
      st, got, i := Collect(n, attempt, replicas, st, total < replicas, first + later);
      if got.Some? {
        assert first + later + [i] == first + (later + [i]);
        total := total + 1;
        extras, later := extras + [got.value], later + [i];
        remaining := remaining - 1;
      } else if |st| == was {
        remaining := remaining - 1;
      }
    }
  }

  // ---------------------------------------------------------------- hedged reads

  datatype RaceResult = Delivered(data: bytes) | NoReplicas | EveryReadFailed(code: int) | Abandoned

  function EnabledOnly(reps: seq<Replica>, enabled: string -> bool): (r: seq<Replica>)
    ensures forall x :: x in r <==> x in reps && enabled(x.provider)
  {
    if reps == [] then []
    else
      var front := EnabledOnly(reps[..|reps| - 1], enabled);
      assert reps == reps[..|reps| - 1] + [reps[|reps| - 1]];
      if enabled(reps[|reps| - 1].provider) then front + [reps[|reps| - 1]] else front
  }

  /** `some` are the enabled replicas at the places `at`, in list order, with no enabled one passed over. */
  ghost predicate InListOrder(reps: seq<Replica>, enabled: string -> bool, some: seq<Replica>, at: seq<nat>) {
    && |at| == |some|
    && (forall i :: 0 <= i < |at| ==> at[i] < |reps| && some[i] == reps[at[i]] && enabled(reps[at[i]].provider))
    && (forall i, j :: 0 <= i < j < |at| ==> at[i] < at[j])
    && (forall i, n: nat :: 0 <= i < |at| && n < at[i] && enabled(reps[n].provider) ==> n in at)
  }

  /** The enabled replicas keep their order, and none is missing. */
  lemma {:induction false} EnabledInOrder(reps: seq<Replica>, enabled: string -> bool) returns (at: seq<nat>)
    ensures InListOrder(reps, enabled, EnabledOnly(reps, enabled), at)
    ensures AllEnabledIn(reps, enabled, at)
  {
    at := [];
    if reps != [] {
      var front, last := reps[..|reps| - 1], reps[|reps| - 1];
      at := EnabledInOrder(front, enabled);
      assert reps == front + [last];
      if enabled(last.provider) {
        EnabledLast(front, last, enabled, EnabledOnly(front, enabled), at);
        at := at + [|front|];
      } else {
        DisabledLast(front, last, enabled, EnabledOnly(front, enabled), at);
      }
    }
  }

  ghost predicate AllEnabledIn(reps: seq<Replica>, enabled: string -> bool, at: seq<nat>) {
    forall n: nat :: n < |reps| && enabled(reps[n].provider) ==> n in at
  }

  lemma {:induction false} EnabledLast(reps: seq<Replica>, last: Replica, enabled: string -> bool, some: seq<Replica>,
                                       at: seq<nat>)
    requires InListOrder(reps, enabled, some, at) && AllEnabledIn(reps, enabled, at) && enabled(last.provider)
    ensures InListOrder(reps + [last], enabled, some + [last], at + [|reps|])
    ensures AllEnabledIn(reps + [last], enabled, at + [|reps|])
  {
    var all, now := reps + [last], at + [|reps|];
    assert forall n: nat :: n in at ==> n in now;
    assert now[|at|] == |reps|;
    forall n: nat | n < |all| && enabled(all[n].provider) ensures n in now {
      assert n < |reps| ==> all[n] == reps[n];
    }
  }

  lemma {:induction false} DisabledLast(reps: seq<Replica>, last: Replica, enabled: string -> bool, some: seq<Replica>,
                                        at: seq<nat>)
    requires InListOrder(reps, enabled, some, at) && AllEnabledIn(reps, enabled, at) && !enabled(last.provider)
    ensures InListOrder(reps + [last], enabled, some, at)
    ensures AllEnabledIn(reps + [last], enabled, at)
  {
    var all := reps + [last];
    forall n: nat | n < |all| && enabled(all[n].provider) ensures n in at {
      assert n < |reps| ==> all[n] == reps[n];
    }
  }

  lemma PrefixInOrder(reps: seq<Replica>, enabled: string -> bool, some: seq<Replica>, at: seq<nat>, n: nat)
    requires InListOrder(reps, enabled, some, at) && n <= |at|
    ensures InListOrder(reps, enabled, some[..n], at[..n])
  {
    forall i, m: nat | 0 <= i < n && m < at[..n][i] && enabled(reps[m].provider) ensures m in at[..n] {
      EarlierPlace(at, n, i, m);
    }
  }

  lemma EarlierPlace(at: seq<nat>, n: nat, i: nat, m: nat)
    requires i < n <= |at| && m in at && m < at[i] && forall a, b :: 0 <= a < b < |at| ==> at[a] < at[b]
    ensures m in at[..n]
  {
    var j :| 0 <= j < |at| && at[j] == m;
    assert at[..n][j] == m;
  }

  method EnabledCandidates(reps: seq<Replica>, enabled: string -> bool) returns (cands: seq<Replica>)
    ensures cands == EnabledOnly(reps, enabled)
  {
    cands := [];
    for j := 0 to |reps|
      invariant cands == EnabledOnly(reps[..j], enabled)
    {
      assert reps[..j + 1][..j] == reps[..j];
      if enabled(reps[j].provider) {
        cands := cands + [reps[j]];
      }
    }
    assert reps[..|reps|] == reps;
  }

  /** Every answered read failed, with some recorded code. */
  ghost predicate AllAnswersFailed(read: Replica -> ReadResult, cands: seq<Replica>, st: seq<Status>) {
    |st| <= |cands| && forall i :: 0 <= i < |st| && !st[i].Pending? ==> read(cands[i]).Failed?
  }

  /** The racing loop over the enabled replicas; `launched` of them were started. */
  method Race(cands: seq<Replica>, read: Replica -> ReadResult, hedging: bool, cancellable: bool)
    returns (r: RaceResult, launched: nat)
    requires cands != []
    ensures launched <= |cands|
    ensures !r.NoReplicas? && (r.Abandoned? ==> cancellable)
    ensures r.Delivered? ==> exists i :: 0 <= i < launched && read(cands[i]) == Got(r.data)
    ensures r.EveryReadFailed? ==>
              && (forall i :: 0 <= i < |cands| ==> read(cands[i]).Failed?)
              && (exists i :: 0 <= i < |cands| && read(cands[i]) == Failed(r.code))
  {
    var st: seq<Status> := [Pending];
    var inflight, lastErr := 1, 0;
    TallyPush([], Pending, Pending);
    assert [] + [Pending] == st;
    while inflight > 0
      invariant AllAnswersFailed(read, cands, st) && inflight == Tally(st, Pending)
      invariant inflight == 0 ==> |st| == |cands|
      invariant inflight < |st| ==> exists i :: 0 <= i < |cands| && read(cands[i]) == Failed(lastErr)
      decreases |cands| - |st|, inflight
    {
      var canceled: bool, timerFires: bool := *, *;
      if cancellable && canceled {
        return Abandoned, |st|;
      } else if hedging && |st| < |cands| && timerFires {
        TallyPush(st, Pending, Pending);
        st, inflight := st + [Pending], inflight + 1;
      } else {
        ghost var w := TallyFinds(st, Pending);
        var k :| 0 <= k < |st| && st[k].Pending?;
        var got := read(cands[k]);
        if got.Got? {
          return Delivered(got.data), |st|;
        }
        lastErr := got.code;
        assert read(cands[k]) == Failed(lastErr);
        TallySet(st, k, Refused, Pending);
        st, inflight := st[k := Refused], inflight - 1;
        if |st| < |cands| {
          TallyPush(st, Pending, Pending);
          st, inflight := st + [Pending], inflight + 1;
        }
      }
    }
    forall i | 0 <= i < |cands| ensures read(cands[i]).Failed? {
      if st[i].Pending? { TallyHas(st, i, Pending); }
    }
    return EveryReadFailed(lastErr), |st|;
  }

  /**
   Races the enabled replicas of a chunk: the next one starts when the hedge timer fires or when a
   read fails.  `launched` lists the replicas that were started: a prefix of the enabled ones, in
   their order, each once.  Whatever the schedule, only a buffer some replica delivered is returned,
   and without cancellation the read fails exactly when every enabled replica's read failed.
   */
  method HedgedRead(reps: seq<Replica>, enabled: string -> bool, read: Replica -> ReadResult, hedging: bool,
                    cancellable: bool)
    returns (r: RaceResult, launched: seq<Replica>, ghost at: seq<nat>)
    ensures launched <= EnabledOnly(reps, enabled)
    ensures InListOrder(reps, enabled, launched, at)
    ensures r.NoReplicas? <==> forall x :: x in reps ==> !enabled(x.provider)
    ensures r.Delivered? ==> exists x :: x in launched && read(x) == Got(r.data)
    ensures r.NoReplicas? <==> EnabledOnly(reps, enabled) == []
    ensures r.Abandoned? ==> cancellable
    ensures r.EveryReadFailed? ==>
              && (forall x :: x in reps && enabled(x.provider) ==> read(x).Failed?)
              && (exists x :: x in reps && enabled(x.provider) && read(x) == Failed(r.code))
  {
    var cands := EnabledCandidates(reps, enabled);
    assert cands != [] ==> cands[0] in cands;
    if cands == [] {
      return NoReplicas, [], [];
    }
    var n;
    r, n := Race(cands, read, hedging, cancellable);
    launched := cands[..n];
    at := EnabledInOrder(reps, enabled);
    PrefixInOrder(reps, enabled, EnabledOnly(reps, enabled), at, n);
    at := at[..n];
    if r.Delivered? {
      ghost var i :| 0 <= i < n && read(cands[i]) == Got(r.data);
      assert cands[i] in launched;
    } else if r.EveryReadFailed? {
      ghost var i :| 0 <= i < |cands| && read(cands[i]) == Failed(r.code);
      assert cands[i] in cands;
    }
  }
}
