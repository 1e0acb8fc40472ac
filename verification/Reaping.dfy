/**
 Overwrites and deletions of one key.  A PUT uploads, reads the old chunk map, commits its own, reaps
 the old replicas, and only then appends its stragglers.  A DELETE reads the chunk map, deletes the
 blobs, and only then removes the rows.  Any number of them, with repairs and liveness marks between,
 interleave transaction by transaction.
 */
module Reaping {
  import opened Bytes
  import opened Metadata

  /** Where a PUT stands. */
  datatype Phase =
    | Uploaded
    | ReadOld(was: set<string>)
    | Committed(was: set<string>)
    | Finished
    | Aborted

  /** A replica that landed in the background and has not been appended yet, filed under its locator. */
  datatype Extra = Extra(seqNo: nat, provider: string, token: string)

  datatype Proc = Proc(phase: Phase, ver: Version, extras: map<string, Extra>)

  /** Where a DELETE stands, with the locators it read. */
  datatype Deletion = Reading(locs: set<string>) | Erasing(locs: set<string>) | Erased

  /**
   `issued` holds every locator handed out, `entered` those that were offered to the key's rows,
   `reaped` those deleted from the hosts.
   */
  datatype State = State(view: View, procs: map<nat, Proc>, dels: map<nat, Deletion>,
                         issued: set<string>, entered: set<string>, reaped: set<string>)

  datatype Step =
    | Begin(p: nat, ver: Version)
    | Land(p: nat, locator: string, extra: Extra)
    | Read(p: nat)
    | Commit(p: nat)
    | Abort(p: nat)
    | Reap(p: nat)
    | Late(p: nat, locator: string)
    | Mark(i: nat, j: nat)
    | Mend(i: nat, reps: seq<Replica>)
    | BeginDelete(d: nat)
    | DeleteBlobs(d: nat)
    | DeleteRows(d: nat)

  function Locators(reps: seq<Replica>): set<string> {
    set j | 0 <= j < |reps| :: reps[j].locator
  }

  function LocsOf(chunks: seq<Chunk>): set<string> {
    set i, j | 0 <= i < |chunks| && 0 <= j < |chunks[i].replicas| :: chunks[i].replicas[j].locator
  }

  /** The locators in the key's committed rows. */
  function Rows(v: View, k: Key): set<string> {
    LocsOf(ChunksOf(v, k))
  }

  /** Uploads hand out fresh locators; a repair keeps locators of the rows it reads and adds fresh ones. */
  predicate Enabled(k: Key, s: State, step: Step) {
    match step
    case Begin(p, ver) => p !in s.procs && LocsOf(ver.chunks) !! s.issued
    case Land(p, l, _) => p in s.procs && l !in s.issued
    case Read(p) => p in s.procs && s.procs[p].phase.Uploaded?
    case Commit(p) => p in s.procs && s.procs[p].phase.ReadOld?
    case Abort(p) => p in s.procs && Pending(s.procs[p])
    case Reap(p) => p in s.procs && s.procs[p].phase.Committed?
    case Late(p, l) => p in s.procs && s.procs[p].phase.Finished? && l in s.procs[p].extras
    case Mark(_, _) => true
    case Mend(_, reps) => forall l :: l in Locators(reps) ==> l in Rows(s.view, k) || l !in s.issued
    case BeginDelete(d) => d !in s.dels
    case DeleteBlobs(d) => d in s.dels && s.dels[d].Reading?
    case DeleteRows(d) => d in s.dels && s.dels[d].Erasing?
  }

  predicate Pending(proc: Proc) {
    proc.phase.Uploaded? || proc.phase.ReadOld?
  }

  function Next(k: Key, s: State, step: Step): State
    requires Enabled(k, s, step)
  {
    match step
    case Begin(p, ver) =>
      s.(procs := s.procs[p := Proc(Uploaded, ver, map[])], issued := s.issued + LocsOf(ver.chunks))
    case Land(p, l, extra) =>
      var proc := s.procs[p];
      s.(procs := s.procs[p := proc.(extras := proc.extras[l := extra])], issued := s.issued + {l})
    case Read(p) =>
      s.(procs := s.procs[p := s.procs[p].(phase := ReadOld(Rows(s.view, k)))])
    case Commit(p) =>
      var proc := s.procs[p];
      s.(view := PutV(s.view, k, proc.ver), procs := s.procs[p := proc.(phase := Committed(proc.phase.was))],
         entered := s.entered + LocsOf(proc.ver.chunks))
    case Abort(p) =>
      s.(procs := s.procs[p := s.procs[p].(phase := Aborted)], reaped := s.reaped + LocsOf(s.procs[p].ver.chunks))
    case Reap(p) =>
      s.(procs := s.procs[p := s.procs[p].(phase := Finished)], reaped := s.reaped + s.procs[p].phase.was)
    case Late(p, l) =>
      var proc := s.procs[p];
      var e := proc.extras[l];
      s.(view := AppendV(s.view, k, e.seqNo, Replica(e.provider, l, e.token, true), proc.ver.etag),
         procs := s.procs[p := proc.(extras := proc.extras - {l})],
         entered := s.entered + {l})
    case Mark(i, j) => s.(view := MarkDeadV(s.view, k, i, j))
    case Mend(i, reps) =>
      s.(view := UpdateV(s.view, k, i, reps), issued := s.issued + Locators(reps),
        entered := s.entered + Locators(reps))
    case BeginDelete(d) => s.(dels := s.dels[d := Reading(Rows(s.view, k))])
    case DeleteBlobs(d) => s.(dels := s.dels[d := Erasing(s.dels[d].locs)], reaped := s.reaped + s.dels[d].locs)
    case DeleteRows(d) => s.(view := DeleteV(s.view, k), dels := s.dels[d := Erased])
  }

  /** The state after a run; a step that is not enabled when its turn comes does nothing. */
  function Exec(k: Key, steps: seq<Step>): State {
    if steps == [] then State(map[], map[], map[], {}, {}, {})
    else
      var s := Exec(k, steps[..|steps| - 1]);
      if Enabled(k, s, steps[|steps| - 1]) then Next(k, s, steps[|steps| - 1]) else s
  }

  // ---------------------------------------------------------------- the invariant

  /** The locators a PUT holds that may still enter the rows. */
  function Own(proc: Proc): set<string> {
    (if Pending(proc) then LocsOf(proc.ver.chunks) else {}) + proc.extras.Keys
  }

  /** The locators a PUT is going to reap. */
  function Doomed(proc: Proc): set<string> {
    match proc.phase
    case ReadOld(was) => was
    case Committed(was) => was
    case _ => {}
  }

  /** What holds of each PUT, given the rows and the locators spent so far. */
  ghost predicate ProcInv(rows: set<string>, issued: set<string>, entered: set<string>, reaped: set<string>,
                          proc: Proc) {
    && Own(proc) <= issued
    && Own(proc) !! entered
    && Own(proc) !! reaped
    && (Pending(proc) ==> LocsOf(proc.ver.chunks) !! proc.extras.Keys)
    && Doomed(proc) <= entered
    && (proc.phase.Committed? ==> proc.phase.was !! rows)
  }

  ghost predicate Procs(rows: set<string>, s: State) {
    forall p :: p in s.procs ==> ProcInv(rows, s.issued, s.entered, s.reaped, s.procs[p])
  }

  ghost predicate Apart(procs: map<nat, Proc>) {
    forall p, q :: p in procs && q in procs && p != q ==> Own(procs[p]) !! Own(procs[q])
  }

  /** Some deletion has deleted that blob and not yet removed the rows. */
  ghost predicate BeingDeleted(dels: map<nat, Deletion>, l: string) {
    exists d :: d in dels && dels[d].Erasing? && l in dels[d].locs
  }

  /** A reaped locator is in the rows only while a deletion is between its two steps. */
  ghost predicate Excused(rows: set<string>, reaped: set<string>, dels: map<nat, Deletion>) {
    forall l :: l in reaped && l in rows ==> BeingDeleted(dels, l)
  }

  ghost predicate Deletions(s: State) {
    forall d :: d in s.dels && !s.dels[d].Erased? ==> s.dels[d].locs <= s.entered
  }

  ghost predicate Inv(k: Key, s: State) {
    && Rows(s.view, k) <= s.entered <= s.issued
    && s.reaped <= s.issued
    && Excused(Rows(s.view, k), s.reaped, s.dels)
    && Deletions(s)
    && Procs(Rows(s.view, k), s)
    && Apart(s.procs)
  }

  // ---------------------------------------------------------------- how transactions change the rows

  lemma RepsInRows(v: View, k: Key, i: nat)
    requires k in v && i < |v[k].chunks|
    ensures Locators(v[k].chunks[i].replicas) <= Rows(v, k)
  {
    var reps := v[k].chunks[i].replicas;
    forall l | l in Locators(reps) ensures l in Rows(v, k) {
      var j :| 0 <= j < |reps| && reps[j].locator == l;
      assert ChunksOf(v, k)[i].replicas[j].locator == l;
    }
  }

  lemma UpdateRows(v: View, k: Key, i: nat, reps: seq<Replica>)
    ensures Rows(UpdateV(v, k, i, reps), k) <= Rows(v, k) + Locators(reps)
  {
    var u := UpdateV(v, k, i, reps);
    forall l | l in Rows(u, k) ensures l in Rows(v, k) + Locators(reps) {
      var n, j :| 0 <= n < |ChunksOf(u, k)| && 0 <= j < |ChunksOf(u, k)[n].replicas|
        && ChunksOf(u, k)[n].replicas[j].locator == l;
      if k in v && n == i {
        if i < |v[k].chunks| { assert reps[j].locator == l; }
      } else {
        assert ChunksOf(v, k)[n].replicas[j].locator == l;
      }
    }
  }

  lemma AppendRows(v: View, k: Key, i: nat, r: Replica, etag: string)
    ensures Rows(AppendV(v, k, i, r, etag), k) <= Rows(v, k) + {r.locator}
  {
    var u := AppendV(v, k, i, r, etag);
    if u != v {
      var reps := v[k].chunks[i].replicas;
      assert u == UpdateV(v, k, i, reps + [r]);
      UpdateRows(v, k, i, reps + [r]);
      RepsInRows(v, k, i);
      forall l | l in Locators(reps + [r]) ensures l in Rows(v, k) + {r.locator} {
        var j :| 0 <= j < |reps + [r]| && (reps + [r])[j].locator == l;
        if j < |reps| { assert reps[j].locator == l && l in Locators(reps); }
      }
    }
  }

  lemma MarkRows(v: View, k: Key, i: nat, j: nat)
    ensures Rows(MarkDeadV(v, k, i, j), k) <= Rows(v, k)
  {
    var u := MarkDeadV(v, k, i, j);
    if k in v && i < |v[k].chunks| && j < |v[k].chunks[i].replicas| {
      var reps := v[k].chunks[i].replicas;
      var now := reps[j := reps[j].(alive := false)];
      assert u == UpdateV(v, k, i, now);
      UpdateRows(v, k, i, now);
      RepsInRows(v, k, i);
      forall l | l in Locators(now) ensures l in Rows(v, k) {
        var n :| 0 <= n < |now| && now[n].locator == l;
        assert reps[n].locator == l && l in Locators(reps);
      }
    }
  }

  // ---------------------------------------------------------------- every step keeps it

  lemma BeginKeeps(k: Key, s: State, p: nat, ver: Version)
    requires Inv(k, s) && Enabled(k, s, Begin(p, ver))
    ensures Inv(k, Next(k, s, Begin(p, ver)))
  {
  }

  lemma LandKeeps(k: Key, s: State, p: nat, l: string, e: Extra)
    requires Inv(k, s) && Enabled(k, s, Land(p, l, e))
    ensures Inv(k, Next(k, s, Land(p, l, e)))
  {
    var s' := Next(k, s, Land(p, l, e));
    assert Own(s'.procs[p]) == Own(s.procs[p]) + {l};
  }

  lemma ReadKeeps(k: Key, s: State, p: nat)
    requires Inv(k, s) && Enabled(k, s, Read(p))
    ensures Inv(k, Next(k, s, Read(p)))
  {
    assert Own(Next(k, s, Read(p)).procs[p]) == Own(s.procs[p]);
  }

  lemma CommitKeeps(k: Key, s: State, p: nat)
    requires Inv(k, s) && Enabled(k, s, Commit(p))
    ensures Inv(k, Next(k, s, Commit(p)))
  {
    var s' := Next(k, s, Commit(p));
    var news := LocsOf(s.procs[p].ver.chunks);
    assert Rows(s'.view, k) == news && news <= Own(s.procs[p]);
    assert Own(s'.procs[p]) <= Own(s.procs[p]);
    forall q | q in s'.procs ensures ProcInv(news, s'.issued, s'.entered, s'.reaped, s'.procs[q]) {
      if q != p { assert Own(s.procs[q]) !! Own(s.procs[p]); }
    }
  }

  lemma AbortKeeps(k: Key, s: State, p: nat)
    requires Inv(k, s) && Enabled(k, s, Abort(p))
    ensures Inv(k, Next(k, s, Abort(p)))
  {
    var s' := Next(k, s, Abort(p));
    assert LocsOf(s.procs[p].ver.chunks) <= Own(s.procs[p]) && Own(s'.procs[p]) <= Own(s.procs[p]);
    forall q | q in s'.procs ensures ProcInv(Rows(s'.view, k), s'.issued, s'.entered, s'.reaped, s'.procs[q]) {
      if q != p { assert Own(s.procs[q]) !! Own(s.procs[p]); }
    }
  }

  lemma ReapKeeps(k: Key, s: State, p: nat)
    requires Inv(k, s) && Enabled(k, s, Reap(p))
    ensures Inv(k, Next(k, s, Reap(p)))
  {
    var s' := Next(k, s, Reap(p));
    assert Own(s'.procs[p]) == Own(s.procs[p]) && Doomed(s.procs[p]) <= s.entered;
  }

  lemma LateKeeps(k: Key, s: State, p: nat, l: string)
    requires Inv(k, s) && Enabled(k, s, Late(p, l))
    ensures Inv(k, Next(k, s, Late(p, l)))
  {
    var s' := Next(k, s, Late(p, l));
    var e := s.procs[p].extras[l];
    AppendRows(s.view, k, e.seqNo, Replica(e.provider, l, e.token, true), s.procs[p].ver.etag);
    assert l in Own(s.procs[p]) && Own(s'.procs[p]) == Own(s.procs[p]) - {l};
    forall q | q in s'.procs ensures ProcInv(Rows(s'.view, k), s'.issued, s'.entered, s'.reaped, s'.procs[q]) {
      if q != p { assert Own(s.procs[q]) !! Own(s.procs[p]); }
    }
  }

  lemma MarkKeeps(k: Key, s: State, i: nat, j: nat)
    requires Inv(k, s)
    ensures Inv(k, Next(k, s, Mark(i, j)))
  {
    MarkRows(s.view, k, i, j);
  }

  lemma MendKeeps(k: Key, s: State, i: nat, reps: seq<Replica>)
    requires Inv(k, s) && Enabled(k, s, Mend(i, reps))
    ensures Inv(k, Next(k, s, Mend(i, reps)))
  {
    UpdateRows(s.view, k, i, reps);
    var s' := Next(k, s, Mend(i, reps));
    forall q | q in s'.procs ensures ProcInv(Rows(s'.view, k), s'.issued, s'.entered, s'.reaped, s'.procs[q]) {
      assert ProcInv(Rows(s.view, k), s.issued, s.entered, s.reaped, s.procs[q]);
    }
  }

  lemma BeginDeleteKeeps(k: Key, s: State, d: nat)
    requires Inv(k, s) && Enabled(k, s, BeginDelete(d))
    ensures Inv(k, Next(k, s, BeginDelete(d)))
  {
    StillExcused(Rows(s.view, k), s.reaped, s.dels, d, Reading(Rows(s.view, k)));
  }

  /** Changing a deletion that is not between its steps takes no excuse away. */
  lemma StillExcused(rows: set<string>, reaped: set<string>, dels: map<nat, Deletion>, d: nat, x: Deletion)
    requires Excused(rows, reaped, dels) && (d !in dels || !dels[d].Erasing?)
    ensures Excused(rows, reaped, dels[d := x])
  {
    forall l | l in reaped && l in rows ensures BeingDeleted(dels[d := x], l) {
      var e :| e in dels && dels[e].Erasing? && l in dels[e].locs;
      assert dels[d := x][e] == dels[e];
    }
  }

  lemma DeleteBlobsKeeps(k: Key, s: State, d: nat)
    requires Inv(k, s) && Enabled(k, s, DeleteBlobs(d))
    ensures Inv(k, Next(k, s, DeleteBlobs(d)))
  {
    var t := Next(k, s, DeleteBlobs(d));
    StillExcused(Rows(s.view, k), s.reaped, s.dels, d, t.dels[d]);
    forall l | l in t.reaped && l in Rows(t.view, k) ensures BeingDeleted(t.dels, l) {
      if l in s.dels[d].locs { assert t.dels[d].Erasing? && l in t.dels[d].locs; }
    }
  }

  lemma DeleteRowsKeeps(k: Key, s: State, d: nat)
    requires Inv(k, s) && Enabled(k, s, DeleteRows(d))
    ensures Inv(k, Next(k, s, DeleteRows(d)))
  {
    assert Rows(DeleteV(s.view, k), k) == {};
  }

  lemma StepKeeps(k: Key, s: State, step: Step)
    requires Inv(k, s) && Enabled(k, s, step)
    ensures Inv(k, Next(k, s, step))
  {
    match step
    case Begin(p, ver) => BeginKeeps(k, s, p, ver);
    case Land(p, l, e) => LandKeeps(k, s, p, l, e);
    case Read(p) => ReadKeeps(k, s, p);
    case Commit(p) => CommitKeeps(k, s, p);
    case Abort(p) => AbortKeeps(k, s, p);
    case Reap(p) => ReapKeeps(k, s, p);
    case Late(p, l) => LateKeeps(k, s, p, l);
    case Mark(i, j) => MarkKeeps(k, s, i, j);
    case Mend(i, reps) => MendKeeps(k, s, i, reps);
    case BeginDelete(d) => BeginDeleteKeeps(k, s, d);
    case DeleteBlobs(d) => DeleteBlobsKeeps(k, s, d);
    case DeleteRows(d) => DeleteRowsKeeps(k, s, d);
  }

  lemma {:induction false} ExecInv(k: Key, steps: seq<Step>)
    ensures Inv(k, Exec(k, steps))
  {
    if steps != [] {
      ExecInv(k, steps[..|steps| - 1]);
      var s := Exec(k, steps[..|steps| - 1]);
      if Enabled(k, s, steps[|steps| - 1]) {
        StepKeeps(k, s, steps[|steps| - 1]);
      }
    }
  }

  // ---------------------------------------------------------------- the result

  /**
   In every interleaving, a locator that was deleted from its host is in a committed row of the key, then
   or later, only while some deletion stands between deleting its blobs and removing the rows.
   */
  lemma NeverReferenced(k: Key, steps: seq<Step>, more: seq<Step>, l: string)
    requires l in Exec(k, steps).reaped && l in Rows(Exec(k, steps + more).view, k)
    ensures BeingDeleted(Exec(k, steps + more).dels, l)
  {
    ReapedGrows(k, steps, more);
    ExecInv(k, steps + more);
  }

  /** Without deletions it never is: overwrites alone never leave a row without its blob. */
  lemma OverwritesNeverDangle(k: Key, steps: seq<Step>, more: seq<Step>)
    requires forall i :: 0 <= i < |steps + more| ==> !(steps + more)[i].BeginDelete?
    ensures Exec(k, steps).reaped !! Rows(Exec(k, steps + more).view, k)
  {
    NoDeletions(k, steps + more);
    forall l | l in Exec(k, steps).reaped && l in Rows(Exec(k, steps + more).view, k) ensures false {
      NeverReferenced(k, steps, more, l);
    }
  }

  /** With a deletion it does happen, from every state: all its blobs are gone while the rows still name them. */
  lemma DeletionDangles(k: Key, steps: seq<Step>, d: nat)
    requires d !in Exec(k, steps).dels
    ensures var s := Exec(k, steps + [BeginDelete(d)] + [DeleteBlobs(d)]);
            s.view == Exec(k, steps).view && Rows(s.view, k) <= s.reaped
  {
    var a := steps + [BeginDelete(d)];
    assert a[..|a| - 1] == steps;
    assert (a + [DeleteBlobs(d)])[..|a|] == a;
  }

  /** The locators in the rows, said outright. */
  lemma RowsMean(v: View, k: Key, l: string)
    ensures l in Rows(v, k) <==>
            k in v && exists i, j ::
              0 <= i < |v[k].chunks| && 0 <= j < |v[k].chunks[i].replicas| && v[k].chunks[i].replicas[j].locator == l
  {
  }

  lemma {:induction false} OneMore(k: Key, steps: seq<Step>, step: Step)
    requires Enabled(k, Exec(k, steps), step)
    ensures Exec(k, steps + [step]) == Next(k, Exec(k, steps), step)
  {
    assert (steps + [step])[..|steps|] == steps;
  }

  /** A failed PUT reaps its own uploads, a finished one appends its stragglers under the guards of the store. */
  lemma PutStepsMean(k: Key, s: State, p: nat, l: string)
    ensures Enabled(k, s, Abort(p)) ==>
              var t := Next(k, s, Abort(p));
              t.view == s.view && t.reaped == s.reaped + LocsOf(s.procs[p].ver.chunks)
    ensures Enabled(k, s, Late(p, l)) ==>
              var t, e, ver := Next(k, s, Late(p, l)), s.procs[p].extras[l], s.procs[p].ver;
              if && HasChunk(s.view, k, e.seqNo) && s.view[k].etag == ver.etag
                 && forall j :: 0 <= j < |s.view[k].chunks[e.seqNo].replicas| ==>
                      s.view[k].chunks[e.seqNo].replicas[j].provider != e.provider
              then
                RepsBecome(s.view, t.view, k, e.seqNo,
                           s.view[k].chunks[e.seqNo].replicas + [Replica(e.provider, l, e.token, true)])
              else t.view == s.view
  {
  }

  /** A deletion takes the key's rows and blobs and nothing else, a repair replaces the replicas of its chunk. */
  lemma OtherStepsMean(k: Key, s: State, d: nat, i: nat, reps: seq<Replica>)
    ensures Enabled(k, s, DeleteBlobs(d)) ==>
              var t := Next(k, s, DeleteBlobs(d)); t.view == s.view && t.reaped == s.reaped + s.dels[d].locs
    ensures Enabled(k, s, DeleteRows(d)) ==>
              var t := Next(k, s, DeleteRows(d)); k !in t.view && OthersKept(s.view, t.view, k) && t.reaped == s.reaped
    ensures Enabled(k, s, Mend(i, reps)) ==>
              var t := Next(k, s, Mend(i, reps));
              if HasChunk(s.view, k, i) then RepsBecome(s.view, t.view, k, i, reps) else t.view == s.view
  {
  }

  /** After any run, an undisturbed PUT of fresh replicas reaps exactly what the rows named and puts its own version. */
  lemma {:induction false} OverwriteReaps(k: Key, steps: seq<Step>, p: nat, ver: Version)
    requires p !in Exec(k, steps).procs && LocsOf(ver.chunks) !! Exec(k, steps).issued
    ensures var s, t := Exec(k, steps), Exec(k, steps + [Begin(p, ver)] + [Read(p)] + [Commit(p)] + [Reap(p)]);
            && k in t.view && t.view[k] == ver && OthersKept(s.view, t.view, k)
            && t.reaped == s.reaped + Rows(s.view, k) && t.dels == s.dels
  {
    var a := steps + [Begin(p, ver)];
    OneMore(k, steps, Begin(p, ver));
    OneMore(k, a, Read(p));
    OneMore(k, a + [Read(p)], Commit(p));
    OneMore(k, a + [Read(p)] + [Commit(p)], Reap(p));
  }

  lemma {:induction false} NoDeletions(k: Key, steps: seq<Step>)
    requires forall i :: 0 <= i < |steps| ==> !steps[i].BeginDelete?
    ensures Exec(k, steps).dels == map[]
  {
    if steps != [] { NoDeletions(k, steps[..|steps| - 1]); }
  }

  lemma {:induction false} ReapedGrows(k: Key, steps: seq<Step>, more: seq<Step>)
    ensures Exec(k, steps).reaped <= Exec(k, steps + more).reaped
    decreases |more|
  {
    if more == [] {
      assert steps + more == steps;
    } else {
      var fewer := more[..|more| - 1];
      ReapedGrows(k, steps, fewer);
      assert (steps + more)[..|steps + more| - 1] == steps + fewer;
    }
  }
}
