/** What the prefetch reader delivers, over every interleaving. */
module PrefetchSafety {
  import opened Bytes
  import opened Alignment
  import opened Prefetch

  // ---------------------------------------------------------------- workers and slots

  function Held(w: Worker): Option<nat> {
    match w
    case Claimed(i) => Some(i)
    case Fetching(i) => Some(i)
    case Fetched(i, _) => Some(i)
    case _ => None
  }

  /** A held index was claimed, has not been drained, and its slot is free: a send cannot block. */
  ghost predicate Owns(f: Fetchers, recvd: nat, w: Worker) {
    Held(w).Some? ==> recvd <= Held(w).value < f.idx && SlotFree(f, Held(w).value)
  }

  /** Every claimed index is in at most one place: one worker, or its own slot. */
  ghost predicate Ownership(c: Config, f: Fetchers, recvd: nat) {
    && |f.slots| == |c.fetch|
    && |f.workers| == c.workers
    && recvd <= f.idx
    && (forall w :: 0 <= w < |f.workers| ==> Owns(f, recvd, f.workers[w]))
    && (forall v, w :: 0 <= v < w < |f.workers| && Held(f.workers[v]).Some? ==>
          Held(f.workers[v]) != Held(f.workers[w]))
    && (forall i: nat :: SlotFull(f, i) ==> recvd <= i < f.idx)
  }

  /** A buffer that window i may legitimately carry. */
  ghost predicate BufferFor(c: Config, cancelled: bool, i: nat, b: Buffer) {
    i < |c.fetch| && (b == AsBuffer(c.fetch[i]) || (cancelled && b == Bad(Canceled)))
  }

  ghost predicate Contents(c: Config, f: Fetchers, cancelled: bool) {
    && (forall w :: 0 <= w < |f.workers| && f.workers[w].Fetched? ==>
          BufferFor(c, cancelled, f.workers[w].i, f.workers[w].b))
    && (forall i: nat :: SlotFull(f, i) ==> BufferFor(c, cancelled, i, f.slots[i].value))
  }

  lemma ClaimKeeps(c: Config, f: Fetchers, recvd: nat, cancelled: bool, w: nat)
    requires Ownership(c, f, recvd) && Contents(c, f, cancelled)
    requires HasWorker(f, w) && f.workers[w].Idle?
    ensures Ownership(c, DoClaim(f, w), recvd) && Contents(c, DoClaim(f, w), cancelled)
  {
    var g := DoClaim(f, w);
    assert forall i: nat :: SlotFull(g, i) ==> SlotFull(f, i);
    if SlotFull(f, f.idx) {}
  }

  lemma CheckKeeps(c: Config, f: Fetchers, recvd: nat, cancelled: bool, w: nat)
    requires Ownership(c, f, recvd) && Contents(c, f, cancelled)
    requires HasWorker(f, w) && f.workers[w].Claimed? && f.workers[w].i < |f.slots|
    ensures Ownership(c, DoCheck(f, w, cancelled), recvd) && Contents(c, DoCheck(f, w, cancelled), cancelled)
  {
    var g := DoCheck(f, w, cancelled);
    assert Owns(f, recvd, f.workers[w]);
    assert forall i: nat :: SlotFull(g, i) ==> SlotFull(f, i) || i == f.workers[w].i;
  }

  lemma FinishKeeps(c: Config, f: Fetchers, recvd: nat, cancelled: bool, w: nat, aborted: bool)
    requires Ownership(c, f, recvd) && Contents(c, f, cancelled)
    requires HasWorker(f, w) && f.workers[w].Fetching? && f.workers[w].i < |c.fetch| && (aborted ==> cancelled)
    ensures Ownership(c, DoFinish(c, f, w, aborted), recvd) && Contents(c, DoFinish(c, f, w, aborted), cancelled)
  {
    var g := DoFinish(c, f, w, aborted);
    assert Owns(f, recvd, f.workers[w]);
    assert forall i: nat :: SlotFull(g, i) ==> SlotFull(f, i);
  }

  lemma PublishKeeps(c: Config, f: Fetchers, recvd: nat, cancelled: bool, w: nat, giveUp: bool)
    requires Ownership(c, f, recvd) && Contents(c, f, cancelled)
    requires HasWorker(f, w) && f.workers[w].Fetched? && (giveUp || SlotFree(f, f.workers[w].i))
    ensures Ownership(c, DoPublish(f, w, giveUp), recvd) && Contents(c, DoPublish(f, w, giveUp), cancelled)
  {
    var g := DoPublish(f, w, giveUp);
    assert Owns(f, recvd, f.workers[w]);
    assert forall i: nat :: SlotFull(g, i) ==> SlotFull(f, i) || i == f.workers[w].i;
  }

  lemma TakeSlotKeeps(c: Config, f: Fetchers, recvd: nat, cancelled: bool)
    requires Ownership(c, f, recvd) && Contents(c, f, cancelled) && SlotFull(f, recvd)
    ensures Ownership(c, TakeSlot(f, recvd), recvd + 1) && Contents(c, TakeSlot(f, recvd), cancelled)
  {
    var g := TakeSlot(f, recvd);
    assert forall i: nat :: SlotFull(g, i) ==> SlotFull(f, i) && i != recvd;
    forall w | 0 <= w < |g.workers|
      ensures Owns(g, recvd + 1, g.workers[w])
    {
      assert Owns(f, recvd, f.workers[w]);
    }
  }

  // ---------------------------------------------------------------- drainer and delivery channel

  /** pieces[i] is what window i contributes once trimmed. */
  ghost predicate TrimsTo(c: Config, pieces: seq<bytes>) {
    && c.window > 0
    && |pieces| == |c.fetch|
    && forall i :: 0 <= i < |pieces| && c.fetch[i].Data? ==> Trim(c, i, AsBuffer(c.fetch[i])) == Good(pieces[i])
  }

  /** A trimmed buffer of window i, as it sits with the drainer or in the delivery channel. */
  ghost predicate TrimmedFor(c: Config, pieces: seq<bytes>, cancelled: bool, i: nat, b: Buffer) {
    && i < |c.fetch|
    && i < |pieces|
    && match b
       case Good(d) => c.fetch[i].Data? && d == pieces[i]
       case Bad(e) => (c.fetch[i].Fail? && e == FetchFailed(c.fetch[i].code)) || (cancelled && e == Canceled)
  }

  lemma TrimYields(c: Config, pieces: seq<bytes>, cancelled: bool, i: nat, b: Buffer)
    requires TrimsTo(c, pieces) && BufferFor(c, cancelled, i, b)
    ensures TrimmedFor(c, pieces, cancelled, i, Trim(c, i, b))
  {
  }

  ghost predicate Draining(c: Config, pieces: seq<bytes>, p: Pipe, cancelled: bool) {
    && p.sent <= |c.fetch|
    && (forall i :: 0 <= i < p.sent ==> c.fetch[i].Data?)
    && match p.drainer
       case Waiting(i) => i == p.sent == p.recvd
       case Holding(i, b) => i == p.sent && p.recvd == i + 1 && TrimmedFor(c, pieces, cancelled, i, b)
       case Stopped => true
  }

  predicate EndsBad(out: seq<Buffer>) {
    out != [] && out[|out| - 1].Bad?
  }

  /** The channel holds windows taken, taken + 1, ... in order; only its last buffer may be an error. */
  ghost predicate Channel(c: Config, pieces: seq<bytes>, p: Pipe, cancelled: bool) {
    && p.taken <= p.sent
    && (forall j :: 0 <= j < |p.out| ==> TrimmedFor(c, pieces, cancelled, p.taken + j, p.out[j]))
    && (forall j :: 0 <= j < |p.out| - 1 ==> p.out[j].Good?)
    && (EndsBad(p.out) ==> p.drainer.Stopped?)
    && p.taken + |p.out| == p.sent + if EndsBad(p.out) then 1 else 0
  }

  ghost predicate PipeInv(c: Config, pieces: seq<bytes>, p: Pipe, cancelled: bool) {
    Draining(c, pieces, p, cancelled) && Channel(c, pieces, p, cancelled)
  }

  lemma SendKeeps(c: Config, pieces: seq<bytes>, p: Pipe, cancelled: bool)
    requires PipeInv(c, pieces, p, cancelled) && p.drainer.Holding?
    ensures PipeInv(c, pieces, DoSend(p), cancelled)
  {
    var q := DoSend(p);
    assert !EndsBad(p.out);
    assert forall j :: 0 <= j < |p.out| ==> q.out[j] == p.out[j];
  }

  lemma PopKeeps(c: Config, pieces: seq<bytes>, p: Pipe, cancelled: bool)
    requires PipeInv(c, pieces, p, cancelled) && p.out != []
    ensures PipeInv(c, pieces, PopOut(p), cancelled)
    ensures p.out[0].Bad? ==> |p.out| == 1
    ensures p.out[0].Good? && |p.out| > 1 ==> EndsBad(p.out) == EndsBad(PopOut(p).out)
  {
    var q := PopOut(p);
    assert forall j :: 0 <= j < |q.out| ==> q.out[j] == p.out[j + 1];
    assert |q.out| > 0 ==> q.out[|q.out| - 1] == p.out[|p.out| - 1];
  }

  // ---------------------------------------------------------------- the reading side

  function Joined(pieces: seq<bytes>, k: nat): bytes
    requires k <= |pieces|
  {
    if k == 0 then [] else Joined(pieces, k - 1) + pieces[k - 1]
  }

  ghost function CurRest(r: Client): bytes {
    if r.cur.None? then [] else r.cur.value.Rest()
  }

  /** Until Close throws buffers away, the bytes out and in hand are the first `taken` windows. */
  ghost predicate InOrder(pieces: seq<bytes>, p: Pipe, r: Client) {
    && p.taken <= |pieces|
    && (r.cur.Some? ==> r.err.None? && r.cur.value.offset <= |r.cur.value.data|)
    && (p.dropped == 0 ==> r.delivered + CurRest(r) == Joined(pieces, p.taken))
  }

  ghost predicate ErrorMeans(c: Config, p: Pipe, r: Client, cancelled: bool) {
    && (r.err.Some? ==> p.drainer.Stopped? && p.out == [] && p.taken == p.sent)
    && match r.err
       case None => true
       case Some(EndOfFile) => cancelled || p.sent == |c.fetch|
       case Some(Canceled) => cancelled
       case Some(FetchFailed(e)) => p.sent < |c.fetch| && c.fetch[p.sent] == Fail(e)
  }

  /** An uncancelled drainer stops only after the last window or after handing on an error. */
  ghost predicate StopReason(c: Config, p: Pipe, r: Client, cancelled: bool) {
    !cancelled && p.drainer.Stopped? && p.sent != |c.fetch| ==>
      EndsBad(p.out) || (r.err.Some? && r.err.value.FetchFailed?)
  }

  ghost predicate ClientInv(c: Config, pieces: seq<bytes>, s: State) {
    && (s.closed ==> s.cancelled)
    && (s.p.dropped > 0 ==> s.closed)
    && InOrder(pieces, s.p, s.r)
    && ErrorMeans(c, s.p, s.r, s.cancelled)
    && StopReason(c, s.p, s.r, s.cancelled)
  }

  lemma CopyKeeps(pieces: seq<bytes>, p: Pipe, r: Client, k: nat)
    requires InOrder(pieces, p, r) && r.cur.Some?
    ensures InOrder(pieces, p, DoCopy(r, k))
  {
    var t := DoCopy(r, k);
    var rest := r.cur.value.Rest();
    var n := Min(k, |rest|);
    assert rest == rest[..n] + t.cur.value.Rest();
    assert t.delivered + CurRest(t) == r.delivered + CurRest(r);
  }

  lemma PullKeeps(c: Config, pieces: seq<bytes>, s: State)
    requires |pieces| == |c.fetch|
    requires PipeInv(c, pieces, s.p, s.cancelled) && ClientInv(c, pieces, s) && Enabled(c, s, Pull)
    ensures ClientInv(c, pieces, DoPull(s)) && PipeInv(c, pieces, DoPull(s).p, s.cancelled)
  {
    var t := DoPull(s);
    if s.p.out != [] {
      PopKeeps(c, pieces, s.p, s.cancelled);
      assert TrimmedFor(c, pieces, s.cancelled, s.p.taken + 0, s.p.out[0]);
      if s.p.out[0].Good? {
        assert t.r.delivered + CurRest(t.r) == s.r.delivered + pieces[s.p.taken];
      }
    }
  }

  lemma DiscardKeeps(c: Config, pieces: seq<bytes>, s: State)
    requires |pieces| == |c.fetch|
    requires PipeInv(c, pieces, s.p, s.cancelled) && ClientInv(c, pieces, s) && Enabled(c, s, Discard)
    ensures ClientInv(c, pieces, s.(p := DoDiscard(s.p))) && PipeInv(c, pieces, DoDiscard(s.p), s.cancelled)
  {
    PopKeeps(c, pieces, s.p, s.cancelled);
    assert TrimmedFor(c, pieces, s.cancelled, s.p.taken + 0, s.p.out[0]);
  }

  // ---------------------------------------------------------------- every run

  ghost predicate Inv(c: Config, pieces: seq<bytes>, s: State) {
    && Ownership(c, s.f, s.p.recvd)
    && Contents(c, s.f, s.cancelled)
    && PipeInv(c, pieces, s.p, s.cancelled)
    && ClientInv(c, pieces, s)
  }

  lemma InitInv(c: Config, pieces: seq<bytes>)
    requires ValidConfig(c) && TrimsTo(c, pieces)
    ensures Inv(c, pieces, Init(c))
  {
  }

  lemma WorkerStepKeeps(c: Config, pieces: seq<bytes>, s: State, step: Step)
    requires Inv(c, pieces, s) && Enabled(c, s, step)
    requires step.Claim? || step.Check? || step.Finish? || step.Publish?
    ensures Inv(c, pieces, Next(c, s, step))
  {
    match step
    case Claim(w) => ClaimKeeps(c, s.f, s.p.recvd, s.cancelled, w);
    case Check(w) => CheckKeeps(c, s.f, s.p.recvd, s.cancelled, w);
    case Finish(w, aborted) => FinishKeeps(c, s.f, s.p.recvd, s.cancelled, w, aborted);
    case Publish(w, giveUp) => PublishKeeps(c, s.f, s.p.recvd, s.cancelled, w, giveUp);
  }

  lemma ReceiveKeeps(c: Config, pieces: seq<bytes>, s: State)
    requires TrimsTo(c, pieces) && Inv(c, pieces, s) && Enabled(c, s, Receive)
    ensures Inv(c, pieces, DoReceive(c, s))
  {
    var i := s.p.drainer.i;
    if i < |s.f.slots| {
      SlotTrims(c, pieces, s, i);
      ReceivedKeeps(c, pieces, s, Trim(c, i, s.f.slots[i].value));
    } else {
      DrainedKeeps(c, pieces, s);
    }
  }

  lemma SlotTrims(c: Config, pieces: seq<bytes>, s: State, i: nat)
    requires TrimsTo(c, pieces) && Inv(c, pieces, s) && Enabled(c, s, Receive) && i == s.p.drainer.i < |s.f.slots|
    ensures SlotFull(s.f, i) && TrimmedFor(c, pieces, s.cancelled, i, Trim(c, i, s.f.slots[i].value))
  {
    TrimYields(c, pieces, s.cancelled, i, s.f.slots[i].value);
  }

  /** The drainer has seen every window and closes the channel. */
  lemma DrainedKeeps(c: Config, pieces: seq<bytes>, s: State)
    requires Inv(c, pieces, s) && s.p.drainer.Waiting? && s.p.drainer.i >= |s.f.slots|
    ensures Inv(c, pieces, s.(p := s.p.(drainer := Stopped)))
  {
  }

  lemma ReceivedKeeps(c: Config, pieces: seq<bytes>, s: State, b: Buffer)
    requires Inv(c, pieces, s) && s.p.drainer.Waiting? && SlotFull(s.f, s.p.drainer.i)
    requires TrimmedFor(c, pieces, s.cancelled, s.p.drainer.i, b)
    ensures Inv(c, pieces, s.(f := TakeSlot(s.f, s.p.drainer.i),
                              p := s.p.(drainer := Holding(s.p.drainer.i, b), recvd := s.p.recvd + 1)))
  {
    TakeSlotKeeps(c, s.f, s.p.recvd, s.cancelled);
    HoldKeeps(c, pieces, s.p, s.cancelled, b);
  }

  lemma HoldKeeps(c: Config, pieces: seq<bytes>, p: Pipe, cancelled: bool, b: Buffer)
    requires PipeInv(c, pieces, p, cancelled) && p.drainer.Waiting? && TrimmedFor(c, pieces, cancelled, p.drainer.i, b)
    ensures PipeInv(c, pieces, p.(drainer := Holding(p.drainer.i, b), recvd := p.recvd + 1), cancelled)
  {
  }

  lemma CancelKeeps(c: Config, pieces: seq<bytes>, s: State, step: Step)
    requires Inv(c, pieces, s) && (step.Cancel? || step.Close?) && Enabled(c, s, step)
    ensures Inv(c, pieces, Next(c, s, step))
  {
  }

  lemma PipeStepKeeps(c: Config, pieces: seq<bytes>, s: State, step: Step)
    requires Inv(c, pieces, s) && (step.Send? || step.Abandon?) && Enabled(c, s, step)
    ensures Inv(c, pieces, Next(c, s, step))
  {
    if step.Send? { SendKeeps(c, pieces, s.p, s.cancelled); }
  }

  lemma ClientStepKeeps(c: Config, pieces: seq<bytes>, s: State, step: Step)
    requires Inv(c, pieces, s) && (step.SkipEmpty? || step.Copy?) && Enabled(c, s, step)
    ensures Inv(c, pieces, Next(c, s, step))
  {
    if step.Copy? { CopyKeeps(pieces, s.p, s.r, step.k); }
  }

  lemma StepKeeps(c: Config, pieces: seq<bytes>, s: State, step: Step)
    requires TrimsTo(c, pieces) && Inv(c, pieces, s) && Enabled(c, s, step)
    ensures Inv(c, pieces, Next(c, s, step))
  {
    match step
    case Claim(_) | Check(_) | Finish(_, _) | Publish(_, _) => WorkerStepKeeps(c, pieces, s, step);
    case Receive => ReceiveKeeps(c, pieces, s);
    case Send | Abandon => PipeStepKeeps(c, pieces, s, step);
    case Pull => PullKeeps(c, pieces, s);
    case SkipEmpty | Copy(_) => ClientStepKeeps(c, pieces, s, step);
    case Cancel | Close => CancelKeeps(c, pieces, s, step);
    case Discard => DiscardKeeps(c, pieces, s);
  }

  lemma {:induction false} ExecInv(c: Config, pieces: seq<bytes>, steps: seq<Step>)
    requires ValidConfig(c) && TrimsTo(c, pieces)
    ensures Inv(c, pieces, Exec(c, steps))
  {
    if steps == [] {
      InitInv(c, pieces);
    } else {
      ExecInv(c, pieces, steps[..|steps| - 1]);
      var s := Exec(c, steps[..|steps| - 1]);
      var step := steps[|steps| - 1];
      if Enabled(c, s, step) {
        StepKeeps(c, pieces, s, step);
      }
    }
  }

  // ---------------------------------------------------------------- main results

  /** A window fetch that does not fail returns the whole window (less what lies past the end of the object). */
  ghost predicate Faithful(c: Config, obj: bytes) {
    && ValidConfig(c)
    && forall i :: 0 <= i < |c.fetch| && c.fetch[i].Data? ==>
         var off := WindowStart(c.start, c.window, i); c.fetch[i].data == Span(obj, off, off + c.window)
  }

  /** The bytes of [start, end) that the first k windows hold. */
  function Upto(c: Config, obj: bytes, k: nat): bytes
    requires c.window > 0 && c.start <= c.end
  {
    Span(obj, c.start, Clip(c.start, c.end, WindowStart(c.start, c.window, k)))
  }

  function Piece(c: Config, obj: bytes, k: nat): bytes
    requires c.window > 0 && c.start <= c.end
  {
    var off := WindowStart(c.start, c.window, k);
    Span(obj, Clip(c.start, c.end, off), Clip(c.start, c.end, off + c.window))
  }

  ghost function Pieces(c: Config, obj: bytes): seq<bytes>
    requires c.window > 0 && c.start <= c.end
  {
    seq(|c.fetch|, i requires 0 <= i => Piece(c, obj, i))
  }

  lemma PiecesTrim(c: Config, obj: bytes)
    requires Faithful(c, obj)
    ensures TrimsTo(c, Pieces(c, obj))
  {
    forall i | 0 <= i < |c.fetch| && c.fetch[i].Data?
      ensures Trim(c, i, AsBuffer(c.fetch[i])) == Good(Piece(c, obj, i))
    {
      PieceTrims(c, obj, i, WindowStart(c.start, c.window, i));
    }
  }

  lemma PieceTrims(c: Config, obj: bytes, i: nat, off: nat)
    requires c.window > 0 && c.start <= c.end && i < |c.fetch| && off == WindowStart(c.start, c.window, i)
    requires c.fetch[i] == Data(Span(obj, off, off + c.window))
    ensures Trim(c, i, AsBuffer(c.fetch[i])) == Good(Piece(c, obj, i))
  {
    TrimFullWindow(obj, off, c.window, c.start, c.end);
  }

  lemma JoinedIsUpto(c: Config, obj: bytes, k: nat)
    requires ValidConfig(c) && k <= |c.fetch|
    ensures Joined(Pieces(c, obj), k) == Upto(c, obj, k)
  {
    var ups := seq(|c.fetch| + 1, j requires 0 <= j => Upto(c, obj, j));
    UptoNone(c, obj);
    forall j | 0 <= j < |c.fetch| ensures ups[j + 1] == ups[j] + Pieces(c, obj)[j] {
      UptoNext(c, obj, j);
    }
    JoinedBy(Pieces(c, obj), ups, k);
  }

  lemma {:induction false} JoinedBy(pieces: seq<bytes>, ups: seq<bytes>, k: nat)
    requires k <= |pieces| && |ups| == |pieces| + 1 && ups[0] == []
    requires forall j :: 0 <= j < |pieces| ==> ups[j + 1] == ups[j] + pieces[j]
    ensures Joined(pieces, k) == ups[k]
  {
    if k > 0 {
      JoinedBy(pieces, ups, k - 1);
      assert ups[(k - 1) + 1] == ups[k - 1] + pieces[k - 1];
    }
  }

  lemma UptoNone(c: Config, obj: bytes)
    requires c.window > 0 && c.start <= c.end
    ensures Upto(c, obj, 0) == []
  {
    FirstWindow(c.start, c.window);
  }

  lemma UptoNext(c: Config, obj: bytes, k: nat)
    requires c.window > 0 && c.start <= c.end
    ensures Upto(c, obj, k + 1) == Upto(c, obj, k) + Piece(c, obj, k)
  {
    var off := WindowStart(c.start, c.window, k);
    assert WindowStart(c.start, c.window, k + 1) == off + c.window by { WindowNext(c.start, c.window, k); }
    ClipStep(obj, c.start, c.end, off, c.window);
  }

  lemma UptoAll(c: Config, obj: bytes)
    requires ValidConfig(c)
    ensures Upto(c, obj, |c.fetch|) == Span(obj, c.start, c.end)
  {
    if c.start < c.end {
      WindowsCover(c.start, c.end, c.window);
    }
  }

  lemma UptoPrefix(c: Config, obj: bytes, k: nat)
    requires ValidConfig(c)
    ensures Upto(c, obj, k) <= Span(obj, c.start, c.end)
  {
    var m := Clip(c.start, c.end, WindowStart(c.start, c.window, k));
    SpanSplit(obj, c.start, m, c.end);
  }

  /** The bytes out so far are a prefix of the requested range, in every run in which Close has thrown nothing away. */
  lemma DeliversPrefix(c: Config, obj: bytes, steps: seq<Step>)
    requires Faithful(c, obj)
    ensures var s := Exec(c, steps);
            && (!s.closed ==> s.p.dropped == 0)
            && (s.p.dropped == 0 ==> s.r.delivered <= Span(obj, c.start, c.end))
  {
    var s := Exec(c, steps);
    PiecesTrim(c, obj);
    ExecInv(c, Pieces(c, obj), steps);
    JoinedIsUpto(c, obj, s.p.taken);
    UptoPrefix(c, obj, s.p.taken);
  }

  /** The least failing window at or after k, or the number of windows. */
  function FirstFailure(c: Config, k: nat): (m: nat)
    requires k <= |c.fetch|
    ensures k <= m <= |c.fetch|
    ensures m < |c.fetch| ==> c.fetch[m].Fail?
    ensures forall i :: k <= i < m ==> c.fetch[i].Data?
    decreases |c.fetch| - k
  {
    if k == |c.fetch| || c.fetch[k].Fail? then k else FirstFailure(c, k + 1)
  }

  /**
   An uncancelled run can end in one way only, whatever the schedule: at end of file after the
   whole range, or with the error of the least failing window after exactly the windows before it.
   */
  lemma UncancelledEnding(c: Config, obj: bytes, steps: seq<Step>)
    requires Faithful(c, obj)
    requires !Exec(c, steps).cancelled && Exec(c, steps).r.err.Some?
    ensures var r := Exec(c, steps).r;
            var m := FirstFailure(c, 0);
            && r.delivered == Upto(c, obj, m)
            && (m == |c.fetch| ==> r.err == Some(EndOfFile) && r.delivered == Span(obj, c.start, c.end))
            && (m < |c.fetch| ==> r.err == Some(FetchFailed(c.fetch[m].code)))
  {
    var s := Exec(c, steps);
    PiecesTrim(c, obj);
    ExecInv(c, Pieces(c, obj), steps);
    JoinedIsUpto(c, obj, s.p.taken);
    UptoAll(c, obj);
    assert s.p.sent == FirstFailure(c, 0);
  }

  lemma ErrorKept(c: Config, s: State, step: Step)
    requires Enabled(c, s, step) && s.r.err.Some? && s.r.cur.None?
    ensures Next(c, s, step).r == s.r
  {
  }

  /** Once Read has reported an error, nothing any goroutine does changes the error or the bytes. */
  lemma {:induction false} ErrorSticks(c: Config, obj: bytes, steps: seq<Step>, more: seq<Step>)
    requires Faithful(c, obj) && Exec(c, steps).r.err.Some?
    ensures Exec(c, steps + more).r == Exec(c, steps).r
    decreases |more|
  {
    if more == [] {
      assert steps + more == steps;
    } else {
      var front, step := steps + more[..|more| - 1], more[|more| - 1];
      ErrorSticks(c, obj, steps, more[..|more| - 1]);
      assert steps + more == front + [step];
      ErrorStays(c, obj, front, step);
    }
  }

  lemma ErrorStays(c: Config, obj: bytes, steps: seq<Step>, step: Step)
    requires Faithful(c, obj) && Exec(c, steps).r.err.Some?
    ensures Exec(c, steps + [step]).r == Exec(c, steps).r
  {
    ExecThen(c, steps, step);
    PiecesTrim(c, obj);
    ExecInv(c, Pieces(c, obj), steps);
    if Enabled(c, Exec(c, steps), step) {
      ErrorKept(c, Exec(c, steps), step);
    }
  }

  /** What Prime returns, once the delivery channel lets it return. */
  function PrimeResult(s: State): Option<Error>
    requires s.r.cur.Some? || s.p.out != [] || s.p.drainer.Stopped?
  {
    if s.r.cur.Some? then None
    else if s.p.out == [] then Some(EndOfFile)
    else if s.p.out[0].Bad? then Some(s.p.out[0].err)
    else None
  }

  /** Before anything was read, Prime reports exactly the fate of window 0; an empty range is end of file. */
  lemma InitialPrime(c: Config, obj: bytes, steps: seq<Step>)
    requires Faithful(c, obj)
    requires var s := Exec(c, steps);
             && !s.cancelled && s.p.taken == 0 && s.r.cur.None? && s.r.err.None?
             && (s.p.out != [] || s.p.drainer.Stopped?)
    ensures PrimeResult(Exec(c, steps)) ==
            if |c.fetch| == 0 then Some(EndOfFile)
            else if c.fetch[0].Fail? then Some(FetchFailed(c.fetch[0].code))
            else None
  {
    var s := Exec(c, steps);
    var pieces := Pieces(c, obj);
    PiecesTrim(c, obj);
    ExecInv(c, pieces, steps);
    if s.p.out != [] {
      assert TrimmedFor(c, pieces, s.cancelled, s.p.taken + 0, s.p.out[0]);
    }
  }

  // ---------------------------------------------------------------- what cancellation and Close can do

  function Then(c: Config, s: State, step: Step): State {
    if Enabled(c, s, step) then Next(c, s, step) else s
  }

  lemma ExecThen(c: Config, steps: seq<Step>, step: Step)
    ensures Exec(c, steps + [step]) == Then(c, Exec(c, steps), step)
  {
    assert (steps + [step])[..|steps|] == steps;
  }

  /** A cancelled run can report a clean end of file without delivering anything, for every non-empty range. */
  lemma CancelledRunLooksComplete(c: Config)
    requires ValidConfig(c) && |c.fetch| > 0
    ensures var r := Exec(c, [Cancel, Abandon, Pull]).r; r.err == Some(EndOfFile) && r.delivered == []
  {
    ExecThen(c, [], Cancel);
    ExecThen(c, [Cancel], Abandon);
    ExecThen(c, [Cancel, Abandon], Pull);
    assert [] + [Cancel] == [Cancel];
    assert [Cancel] + [Abandon] == [Cancel, Abandon];
    assert [Cancel, Abandon] + [Pull] == [Cancel, Abandon, Pull];
  }

  /** The arguments of construction never lead to an ill-formed reader. */
  /** A read takes from the current buffer what is left of it, up to its own size, and keeps the rest. */
  lemma CopyFills(c: Config, s: State, k: nat)
    requires Enabled(c, s, Copy(k))
    ensures var t, left := Next(c, s, Copy(k)), s.r.cur.value.data[s.r.cur.value.offset..];
            && t.r.cur.Some? && 0 < Min(k, |left|) && t.r.delivered == s.r.delivered + left[..Min(k, |left|)]
            && t.r.cur.value.data == s.r.cur.value.data
            && t.r.cur.value.offset == s.r.cur.value.offset + Min(k, |left|)
  {
  }

  /** Sensible arguments survive construction; the others are replaced. */
  ghost predicate Clamped(start: int, end: int, chunkSize: int, concurrency: int, outBuffers: int, c: Config) {
    && (start >= 0 ==> c.start == start) && (start < 0 ==> c.start == 0)
    && (end >= c.start ==> c.end == end) && (end < c.start ==> c.end == c.start)
    && (chunkSize > 0 ==> c.window == chunkSize) && (chunkSize <= 0 ==> c.window == 1048576)
    && (outBuffers > 0 ==> c.outCap == outBuffers) && (outBuffers <= 0 ==> c.outCap == 1)
    && (1 <= concurrency <= |c.fetch| ==> c.workers == concurrency)
    && (concurrency > |c.fetch| ==> c.workers == |c.fetch|)
    && (concurrency < 1 <= |c.fetch| ==> c.workers == 1)
  }

  lemma NewConfigIsValid(start: int, end: int, chunkSize: int, concurrency: int, outBuffers: int, fetch: nat -> Outcome)
    ensures ValidConfig(NewConfig(start, end, chunkSize, concurrency, outBuffers, fetch))
    ensures Clamped(start, end, chunkSize, concurrency, outBuffers,
                    NewConfig(start, end, chunkSize, concurrency, outBuffers, fetch))
    ensures var c := NewConfig(start, end, chunkSize, concurrency, outBuffers, fetch);
            forall i: nat :: i < |c.fetch| ==> c.fetch[i] == fetch(i)
  {
  }
}
