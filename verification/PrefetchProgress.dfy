/** The prefetch reader never gets stuck and always finishes. */
module PrefetchProgress {
  import opened Bytes
  import opened Prefetch
  import opened PrefetchSafety

  // ---------------------------------------------------------------- no claimed window is lost

  ghost predicate HeldBySome(f: Fetchers, i: nat) {
    exists w :: 0 <= w < |f.workers| && Held(f.workers[w]) == Some(i)
  }

  /** Until cancellation, a claimed window that was not drained is in its slot or in some worker's hands. */
  ghost predicate Cover(f: Fetchers, recvd: nat) {
    && (forall i: nat :: recvd <= i < f.idx && i < |f.slots| ==> SlotFull(f, i) || HeldBySome(f, i))
    && (forall w :: 0 <= w < |f.workers| && f.workers[w].Gone? ==> f.idx > |f.slots|)
  }

  /** Replacing worker w's entry loses at most what w held. */
  lemma StillHeld(f: Fetchers, g: Fetchers, w: nat, i: nat)
    requires HasWorker(f, w) && |g.workers| == |f.workers|
    requires forall v :: 0 <= v < |f.workers| && v != w ==> g.workers[v] == f.workers[v]
    requires HeldBySome(f, i) && (Held(f.workers[w]) == Some(i) ==> Held(g.workers[w]) == Some(i))
    ensures HeldBySome(g, i)
  {
    var v :| 0 <= v < |f.workers| && Held(f.workers[v]) == Some(i);
    assert Held(g.workers[v]) == Some(i);
  }

  lemma ClaimCovers(f: Fetchers, recvd: nat, w: nat)
    requires Cover(f, recvd) && HasWorker(f, w) && f.workers[w].Idle?
    ensures Cover(DoClaim(f, w), recvd)
  {
    var g := DoClaim(f, w);
    forall i: nat | recvd <= i < g.idx && i < |g.slots|
      ensures SlotFull(g, i) || HeldBySome(g, i)
    {
      if i == f.idx {
        assert Held(g.workers[w]) == Some(i);
      } else if !SlotFull(f, i) {
        StillHeld(f, g, w, i);
      }
    }
  }

  /** A step that keeps what worker w holds, or moves it into its slot, keeps the cover. */
  lemma MoveCovers(f: Fetchers, g: Fetchers, recvd: nat, w: nat)
    requires Cover(f, recvd) && HasWorker(f, w) && Held(f.workers[w]).Some?
    requires |g.workers| == |f.workers| && g.idx == f.idx && |g.slots| == |f.slots| && !g.workers[w].Gone?
    requires forall v :: 0 <= v < |f.workers| && v != w ==> g.workers[v] == f.workers[v]
    requires forall i: nat :: SlotFull(f, i) ==> SlotFull(g, i)
    requires Held(g.workers[w]) == Held(f.workers[w]) || SlotFull(g, Held(f.workers[w]).value)
    ensures Cover(g, recvd)
  {
    forall i: nat | recvd <= i < g.idx && i < |g.slots|
      ensures SlotFull(g, i) || HeldBySome(g, i)
    {
      if !SlotFull(f, i) && Some(i) != Held(f.workers[w]) {
        StillHeld(f, g, w, i);
      } else if !SlotFull(f, i) && Held(g.workers[w]) == Held(f.workers[w]) {
        assert Held(g.workers[w]) == Some(i);
      }
    }
  }

  lemma TakeCovers(f: Fetchers, recvd: nat)
    requires Cover(f, recvd) && SlotFull(f, recvd)
    ensures Cover(TakeSlot(f, recvd), recvd + 1)
  {
    var g := TakeSlot(f, recvd);
    forall i: nat | recvd + 1 <= i < g.idx && i < |g.slots|
      ensures SlotFull(g, i) || HeldBySome(g, i)
    {
      if !SlotFull(f, i) {
        var w :| 0 <= w < |f.workers| && Held(f.workers[w]) == Some(i);
        assert Held(g.workers[w]) == Some(i);
      }
    }
  }

  lemma StepCovers(c: Config, pieces: seq<bytes>, s: State, step: Step)
    requires Inv(c, pieces, s) && Cover(s.f, s.p.recvd) && Enabled(c, s, step)
    requires !Next(c, s, step).cancelled
    ensures Cover(Next(c, s, step).f, Next(c, s, step).p.recvd)
  {
    match step
    case Claim(w) => ClaimCovers(s.f, s.p.recvd, w);
    case Check(w) => MoveCovers(s.f, DoCheck(s.f, w, s.cancelled), s.p.recvd, w);
    case Finish(w, aborted) => MoveCovers(s.f, DoFinish(c, s.f, w, aborted), s.p.recvd, w);
    case Publish(w, giveUp) => MoveCovers(s.f, DoPublish(s.f, w, giveUp), s.p.recvd, w);
    case Receive => if s.p.drainer.i < |s.f.slots| { TakeCovers(s.f, s.p.recvd); }
    case _ =>
  }

  lemma {:induction false} ExecCovers(c: Config, pieces: seq<bytes>, steps: seq<Step>)
    requires ValidConfig(c) && TrimsTo(c, pieces) && !Exec(c, steps).cancelled
    ensures Cover(Exec(c, steps).f, Exec(c, steps).p.recvd)
  {
    if steps != [] {
      var front := steps[..|steps| - 1];
      ExecInv(c, pieces, front);
      ExecCovers(c, pieces, front);
      if Enabled(c, Exec(c, front), steps[|steps| - 1]) {
        StepCovers(c, pieces, Exec(c, front), steps[|steps| - 1]);
      }
    }
  }

  // ---------------------------------------------------------------- some step is always enabled

  /** Steps of workers, drainer and consumer; not cancellation, and not Close with its drain. */
  predicate Working(step: Step) {
    !step.Cancel? && !step.Close? && !step.Discard?
  }

  /** Steps of the goroutines the reader starts: workers, drainer, and the drain that Close starts. */
  predicate Background(step: Step) {
    step.Discard? || (Working(step) && !step.Pull? && !step.SkipEmpty? && !step.Copy?)
  }

  /** A worker holding a window can always move on: its own slot is free, so it never blocks on a send. */
  lemma HolderMoves(c: Config, f: Fetchers, s: State, w: nat) returns (step: Step)
    requires s.f == f && Ownership(c, f, s.p.recvd) && HasWorker(f, w) && Held(f.workers[w]).Some?
    ensures Working(step) && Background(step) && Enabled(c, s, step)
  {
    assert Owns(f, s.p.recvd, f.workers[w]);
    match f.workers[w]
    case Claimed(_) => step := Check(w);
    case Fetching(_) => step := Finish(w, false);
    case Fetched(_, _) => step := Publish(w, false);
  }

  /** Every uncancelled state whose reader has not reported an end has an enabled worker, drainer or consumer step. */
  lemma NeverStuck(c: Config, obj: bytes, steps: seq<Step>) returns (step: Step)
    requires Faithful(c, obj) && !Exec(c, steps).cancelled && Exec(c, steps).r.err.None?
    ensures Working(step) && Enabled(c, Exec(c, steps), step)
  {
    var s := Exec(c, steps);
    PiecesTrim(c, obj);
    ExecInv(c, Pieces(c, obj), steps);
    ExecCovers(c, Pieces(c, obj), steps);
    if s.r.cur.Some? {
      step := if s.r.cur.value.IsEmpty() then SkipEmpty else Copy(1);
    } else if s.p.out != [] || s.p.drainer.Stopped? {
      step := Pull;
    } else if s.p.drainer.Holding? {
      step := Send;
    } else {
      step := FetchMoves(c, s);
    }
  }

  lemma FetchMoves(c: Config, s: State) returns (step: Step)
    requires ValidConfig(c) && Ownership(c, s.f, s.p.recvd) && Cover(s.f, s.p.recvd)
    requires s.p.drainer == Waiting(s.p.recvd)
    ensures Working(step) && Enabled(c, s, step)
  {
    var i := s.p.recvd;
    if i >= |s.f.slots| || SlotFull(s.f, i) {
      step := Receive;
    } else if i < s.f.idx {
      assert HeldBySome(s.f, i);
      var w :| 0 <= w < |s.f.workers| && Held(s.f.workers[w]) == Some(i);
      step := HolderMoves(c, s.f, s, w);
    } else if s.f.workers[0].Idle? {
      step := Claim(0);
    } else {
      step := HolderMoves(c, s.f, s, 0);
    }
  }

  ghost predicate AllExited(s: State) {
    s.p.drainer.Stopped? && forall w :: 0 <= w < |s.f.workers| ==> s.f.workers[w].Gone?
  }

  /** After Close, whatever the state was, some goroutine can move until all have exited and the channel is empty. */
  lemma CloseNeverStuck(c: Config, obj: bytes, steps: seq<Step>) returns (step: Step)
    requires Faithful(c, obj) && Exec(c, steps).closed
    requires !AllExited(Exec(c, steps)) || Exec(c, steps).p.out != []
    ensures Background(step) && Enabled(c, Exec(c, steps), step)
  {
    var s := Exec(c, steps);
    PiecesTrim(c, obj);
    ExecInv(c, Pieces(c, obj), steps);
    if s.p.out != [] {
      step := Discard;
    } else if !s.p.drainer.Stopped? {
      step := Abandon;
    } else {
      var w :| 0 <= w < |s.f.workers| && !s.f.workers[w].Gone?;
      if s.f.workers[w].Idle? {
        step := Claim(w);
      } else {
        step := HolderMoves(c, s.f, s, w);
      }
    }
  }

  // ---------------------------------------------------------------- every run is finite

  function Rank(w: Worker): nat {
    match w
    case Idle => 1
    case Claimed(_) => 4
    case Fetching(_) => 3
    case Fetched(_, _) => 2
    case Gone => 0
  }

  function RankSum(ws: seq<Worker>): nat {
    if ws == [] then 0 else Rank(ws[0]) + RankSum(ws[1..])
  }

  lemma {:induction false} RankSumUpdate(ws: seq<Worker>, w: nat, x: Worker)
    requires w < |ws|
    ensures RankSum(ws[w := x]) == RankSum(ws) - Rank(ws[w]) + Rank(x)
  {
    if w == 0 {
      assert ws[w := x][1..] == ws[1..];
    } else {
      RankSumUpdate(ws[1..], w - 1, x);
      assert ws[w := x][1..] == ws[1..][w - 1 := x];
    }
  }

  function FetchMeasure(f: Fetchers): nat {
    5 * (|f.slots| - Min(f.idx, |f.slots|)) + RankSum(f.workers)
  }

  function PipeMeasure(n: nat, p: Pipe): nat {
    2 * |p.out| +
    match p.drainer
    case Waiting(i) => 4 * (n - Min(i, n)) + 2
    case Holding(i, _) => 4 * (n - Min(i, n)) + 1
    case Stopped => 0
  }

  function Flag(b: bool): nat {
    if b then 0 else 1
  }

  /** Falls with every step that is not a Copy. */
  function Control(c: Config, s: State): nat {
    FetchMeasure(s.f) + PipeMeasure(|c.fetch|, s.p)
    + Flag(s.cancelled) + Flag(s.closed) + Flag(s.r.err.Some?) + Flag(s.r.cur.None?)
  }

  ghost predicate Smaller(c: Config, t: State, s: State) {
    Control(c, t) < Control(c, s) || (Control(c, t) == Control(c, s) && |CurRest(t.r)| < |CurRest(s.r)|)
  }

  lemma WorkerFalls(f: Fetchers, g: Fetchers, w: nat, x: Worker)
    requires HasWorker(f, w) && g.workers == f.workers[w := x] && Rank(x) < Rank(f.workers[w])
    requires |g.slots| == |f.slots| && f.idx == g.idx
    ensures FetchMeasure(g) < FetchMeasure(f)
  {
    RankSumUpdate(f.workers, w, x);
  }

  lemma ClaimFalls(f: Fetchers, w: nat)
    requires HasWorker(f, w) && f.workers[w].Idle?
    ensures FetchMeasure(DoClaim(f, w)) < FetchMeasure(f)
  {
    RankSumUpdate(f.workers, w, if f.idx >= |f.slots| then Gone else Claimed(f.idx));
  }

  lemma WorkerStepFalls(c: Config, s: State, step: Step)
    requires Enabled(c, s, step) && (step.Claim? || step.Check? || step.Finish? || step.Publish?)
    ensures FetchMeasure(Next(c, s, step).f) < FetchMeasure(s.f)
  {
    var g := Next(c, s, step).f;
    match step
    case Claim(w) => ClaimFalls(s.f, w);
    case Check(w) => WorkerFalls(s.f, g, w, g.workers[w]);
    case Finish(w, _) => WorkerFalls(s.f, g, w, g.workers[w]);
    case Publish(w, _) => WorkerFalls(s.f, g, w, g.workers[w]);
  }

  lemma PipeStepFalls(c: Config, pieces: seq<bytes>, s: State, step: Step)
    requires PipeInv(c, pieces, s.p, s.cancelled) && |s.f.slots| == |c.fetch|
    requires Enabled(c, s, step) && (step.Receive? || step.Send? || step.Abandon? || step.Discard?)
    ensures PipeMeasure(|c.fetch|, Next(c, s, step).p) < PipeMeasure(|c.fetch|, s.p)
    ensures FetchMeasure(Next(c, s, step).f) == FetchMeasure(s.f)
  {
  }

  /** Every enabled step makes the state smaller, so no schedule can run for ever. */
  lemma StepFalls(c: Config, pieces: seq<bytes>, s: State, step: Step)
    requires Inv(c, pieces, s) && Enabled(c, s, step)
    ensures Smaller(c, Next(c, s, step), s)
  {
    match step
    case Claim(_) | Check(_) | Finish(_, _) | Publish(_, _) => WorkerStepFalls(c, s, step);
    case Receive | Send | Abandon | Discard => PipeStepFalls(c, pieces, s, step);
    case Pull => if s.p.out != [] { assert |DoPull(s).p.out| == |s.p.out| - 1; }
    case SkipEmpty =>
    case Copy(_) =>
    case Cancel =>
    case Close =>
  }

  lemma ExecFalls(c: Config, obj: bytes, steps: seq<Step>, step: Step)
    requires Faithful(c, obj) && Enabled(c, Exec(c, steps), step)
    ensures Smaller(c, Exec(c, steps + [step]), Exec(c, steps))
  {
    PiecesTrim(c, obj);
    ExecInv(c, Pieces(c, obj), steps);
    StepFalls(c, Pieces(c, obj), Exec(c, steps), step);
    ExecThen(c, steps, step);
  }

  /** A scheduler: which step to try next, given how many steps were taken and the state reached. */
  type Scheduler = (nat, State) -> Step

  /** Runs a scheduler until the step it proposes is not enabled. */
  lemma RunOut(c: Config, obj: bytes, pick: Scheduler, steps: seq<Step>) returns (all: seq<Step>)
    requires Faithful(c, obj)
    ensures steps <= all
    ensures !Enabled(c, Exec(c, all), pick(|all|, Exec(c, all)))
    ensures forall k :: |steps| <= k < |all| ==> all[k] == pick(k, Exec(c, all[..k]))
    decreases Control(c, Exec(c, steps)), |CurRest(Exec(c, steps).r)|
  {
    var s := Exec(c, steps);
    var step := pick(|steps|, s);
    if !Enabled(c, s, step) {
      all := steps;
    } else {
      ExecFalls(c, obj, steps, step);
      all := RunOut(c, obj, pick, steps + [step]);
      assert all[..|steps|] == steps;
    }
  }

  /** Proposes only worker, drainer and consumer steps, and an enabled one whenever there is one. */
  ghost predicate Diligent(c: Config, pick: Scheduler) {
    && (forall k, s :: Working(pick(k, s)))
    && (forall k, s, step :: Working(step) && Enabled(c, s, step) ==> Enabled(c, s, pick(k, s)))
  }

  /**
   Total correctness: under every diligent scheduler the run ends, its ending is the one ending
   there is (the whole range, or the windows before the least failing one and its error), and all
   workers and the drainer have exited.
   */
  lemma RunEnds(c: Config, obj: bytes, pick: Scheduler) returns (all: seq<Step>)
    requires Faithful(c, obj) && Diligent(c, pick)
    ensures forall k :: 0 <= k < |all| ==> all[k] == pick(k, Exec(c, all[..k]))
    ensures var r := Exec(c, all).r;
            var m := FirstFailure(c, 0);
            && r.delivered == Upto(c, obj, m)
            && r.err == Some(if m == |c.fetch| then EndOfFile else FetchFailed(c.fetch[m].code))
    ensures AllExited(Exec(c, all))
  {
    all := RunOut(c, obj, pick, []);
    WorkingNeverCancels(c, all);
    if Exec(c, all).r.err.None? {
      var step := NeverStuck(c, obj, all);
    } else {
      UncancelledEnding(c, obj, all);
      if !AllExited(Exec(c, all)) {
        var step := LeftoverMoves(c, obj, all);
      }
    }
  }

  /** Once Read has reported the end the drainer has stopped, and a worker that is left can move. */
  lemma LeftoverMoves(c: Config, obj: bytes, steps: seq<Step>) returns (step: Step)
    requires Faithful(c, obj) && Exec(c, steps).r.err.Some? && !AllExited(Exec(c, steps))
    ensures Working(step) && Enabled(c, Exec(c, steps), step)
  {
    var s := Exec(c, steps);
    PiecesTrim(c, obj);
    ExecInv(c, Pieces(c, obj), steps);
    var w :| 0 <= w < |s.f.workers| && !s.f.workers[w].Gone?;
    if s.f.workers[w].Idle? {
      step := Claim(w);
    } else {
      step := HolderMoves(c, s.f, s, w);
    }
  }

  lemma {:induction false} WorkingNeverCancels(c: Config, steps: seq<Step>)
    requires forall k :: 0 <= k < |steps| ==> Working(steps[k])
    ensures !Exec(c, steps).cancelled
  {
    if steps != [] {
      WorkingNeverCancels(c, steps[..|steps| - 1]);
    }
  }

  /** Takes any step it likes, as long as the goroutines are not left waiting for ever. */
  ghost predicate Serving(c: Config, pick: Scheduler) {
    forall k, s, step :: Background(step) && Enabled(c, s, step) ==> Enabled(c, s, pick(k, s))
  }

  /** Close from any state: whatever else is scheduled, all goroutines exit and no buffer is left behind. */
  lemma CloseReleases(c: Config, obj: bytes, steps: seq<Step>, pick: Scheduler) returns (all: seq<Step>)
    requires Faithful(c, obj) && Serving(c, pick) && Exec(c, steps).closed
    ensures steps <= all && forall k :: |steps| <= k < |all| ==> all[k] == pick(k, Exec(c, all[..k]))
    ensures AllExited(Exec(c, all)) && Exec(c, all).p.out == []
  {
    all := RunOut(c, obj, pick, steps);
    StaysClosed(c, steps, all);
    if !AllExited(Exec(c, all)) || Exec(c, all).p.out != [] {
      var step := CloseNeverStuck(c, obj, all);
    }
  }

  lemma {:induction false} StaysClosed(c: Config, steps: seq<Step>, all: seq<Step>)
    requires steps <= all && Exec(c, steps).closed
    ensures Exec(c, all).closed
    decreases |all|
  {
    if |all| > |steps| {
      StaysClosed(c, steps, all[..|all| - 1]);
    } else {
      assert all == steps;
    }
  }
}
