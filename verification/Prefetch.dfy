/**
 The parallel-prefetch reader: workers race for window indices, publish into one-place
 slots, a drainer trims and orders the windows, and Read, Prime and Close run beside them.

 The goroutines are modelled as a step system.  Everything that can be interleaved is a
 `Step`; a run is any sequence of steps, with steps that are not enabled skipped, so a
 statement about `Exec(c, steps)` for all `steps` ranges over every interleaving.
 */
module Prefetch {
  import opened Bytes
  import opened Alignment

  /** What one window fetch yields when nobody cancels it. */
  datatype Outcome = Data(data: bytes) | Fail(code: int)

  datatype Error = EndOfFile | Canceled | FetchFailed(code: int)

  /** What travels through the slots and the delivery channel. */
  datatype Buffer = Good(data: bytes) | Bad(err: Error)

  /** The buffer being consumed, with its read position. */
  datatype Cursor = Cursor(data: bytes, offset: nat) {
    predicate IsEmpty() {
      offset >= |data|
    }

    function Rest(): bytes {
      if IsEmpty() then [] else data[offset..]
    }

    function Advance(n: nat): Cursor {
      Cursor(data, Min(offset + n, |data|))
    }
  }

  datatype Config = Config(start: nat, end: nat, window: nat, workers: nat, outCap: nat, fetch: seq<Outcome>)

  datatype Worker = Idle | Claimed(i: nat) | Fetching(i: nat) | Fetched(i: nat, b: Buffer) | Gone

  datatype Drainer = Waiting(i: nat) | Holding(i: nat, b: Buffer) | Stopped

  /** The shared index counter, the workers, and one slot per window. */
  datatype Fetchers = Fetchers(idx: nat, workers: seq<Worker>, slots: seq<Option<Buffer>>)

  /**
   The drainer and the delivery channel, which is closed once the drainer has stopped.
   `recvd`, `sent`, `taken` and `dropped` are history counters: windows the drainer
   received, good windows it sent, good windows that left the channel, and those among
   them that Close threw away.
   */
  datatype Pipe = Pipe(drainer: Drainer, out: seq<Buffer>, recvd: nat, sent: nat, taken: nat, dropped: nat)

  /** The reading side; `delivered` is every byte Read has returned so far. */
  datatype Client = Client(cur: Option<Cursor>, err: Option<Error>, delivered: bytes)

  datatype State = State(f: Fetchers, p: Pipe, r: Client, cancelled: bool, closed: bool)

  datatype Step =
    | Claim(w: nat)
    | Check(w: nat)
    | Finish(w: nat, aborted: bool)
    | Publish(w: nat, giveUp: bool)
    | Receive
    | Send
    | Abandon
    | Pull
    | SkipEmpty
    | Copy(k: nat)
    | Cancel
    | Close
    | Discard

  // ---------------------------------------------------------------- construction

  /** The clamping that construction applies to its arguments. */
  function NewConfig(start: int, end: int, chunkSize: int, concurrency: int, outBuffers: int,
                     fetch: nat -> Outcome): Config
  {
    var s := Max(start, 0);
    var e := Max(end, s);
    var w := if chunkSize <= 0 then 0x10_0000 else chunkSize;
    var n := WindowCount(s, e, w);
    Config(s, e, w, Min(if concurrency <= 0 then 1 else concurrency, n),
           if outBuffers <= 0 then 1 else outBuffers, seq(n, i requires 0 <= i => fetch(i)))
  }

  ghost predicate ValidConfig(c: Config) {
    && c.window > 0
    && c.outCap > 0
    && c.start <= c.end
    && |c.fetch| == WindowCount(c.start, c.end, c.window)
    && c.workers <= |c.fetch|
    && (|c.fetch| > 0 ==> c.workers > 0)
  }

  function Init(c: Config): State {
    State(Fetchers(0, seq(c.workers, _ => Idle), seq(|c.fetch|, _ => None)),
          Pipe(if |c.fetch| == 0 then Stopped else Waiting(0), [], 0, 0, 0, 0),
          Client(None, None, []), false, false)
  }

  // ---------------------------------------------------------------- steps

  function AsBuffer(o: Outcome): Buffer {
    match o
    case Data(d) => Good(d)
    case Fail(e) => Bad(FetchFailed(e))
  }

  /** The drainer's intersection of window i with [start, end). */
  function Trim(c: Config, i: nat, b: Buffer): Buffer
    requires c.window > 0
  {
    match b
    case Good(d) => Good(TrimTo(WindowStart(c.start, c.window, i), d, c.start, c.end))
    case Bad(_) => b
  }

  predicate HasWorker(f: Fetchers, w: nat) {
    w < |f.workers|
  }

  predicate SlotFull(f: Fetchers, i: nat) {
    i < |f.slots| && f.slots[i].Some?
  }

  predicate SlotFree(f: Fetchers, i: nat) {
    i < |f.slots| && f.slots[i].None?
  }

  predicate Enabled(c: Config, s: State, step: Step) {
    match step
    case Claim(w) => HasWorker(s.f, w) && s.f.workers[w].Idle?
    case Check(w) => HasWorker(s.f, w) && s.f.workers[w].Claimed? && s.f.workers[w].i < |s.f.slots|
    case Finish(w, aborted) =>
      HasWorker(s.f, w) && s.f.workers[w].Fetching? && s.f.workers[w].i < |c.fetch| && (aborted ==> s.cancelled)
    case Publish(w, giveUp) =>
      HasWorker(s.f, w) && s.f.workers[w].Fetched? && if giveUp then s.cancelled else SlotFree(s.f, s.f.workers[w].i)
    case Receive =>
      s.p.drainer.Waiting? && c.window > 0 && (s.p.drainer.i >= |s.f.slots| || SlotFull(s.f, s.p.drainer.i))
    case Send => s.p.drainer.Holding? && |s.p.out| < c.outCap
    case Abandon => !s.p.drainer.Stopped? && s.cancelled
    case Pull => s.r.err.None? && s.r.cur.None? && (s.p.out != [] || s.p.drainer.Stopped?)
    case SkipEmpty => s.r.err.None? && s.r.cur.Some? && s.r.cur.value.IsEmpty()
    case Copy(k) => s.r.err.None? && s.r.cur.Some? && !s.r.cur.value.IsEmpty() && k > 0
    case Cancel => !s.cancelled
    case Close => !s.closed
    case Discard => s.closed && s.p.out != []
  }

  /** A worker takes the next index, or leaves when there is none. */
  function DoClaim(f: Fetchers, w: nat): Fetchers
    requires HasWorker(f, w)
  {
    f.(idx := f.idx + 1, workers := f.workers[w := if f.idx >= |f.slots| then Gone else Claimed(f.idx)])
  }

  /** A worker looks at the context: when cancelled it leaves a cancellation behind without blocking. */
  function DoCheck(f: Fetchers, w: nat, cancelled: bool): Fetchers
    requires HasWorker(f, w) && f.workers[w].Claimed? && f.workers[w].i < |f.slots|
  {
    var i := f.workers[w].i;
    if !cancelled then f.(workers := f.workers[w := Fetching(i)])
    else if f.slots[i].None? then f.(workers := f.workers[w := Gone], slots := f.slots[i := Some(Bad(Canceled))])
    else f.(workers := f.workers[w := Gone])
  }

  /** A fetch returns: its outcome, or a cancellation when the context is already cancelled. */
  function DoFinish(c: Config, f: Fetchers, w: nat, aborted: bool): Fetchers
    requires HasWorker(f, w) && f.workers[w].Fetching? && f.workers[w].i < |c.fetch|
  {
    var i := f.workers[w].i;
    f.(workers := f.workers[w := Fetched(i, if aborted then Bad(Canceled) else AsBuffer(c.fetch[i]))])
  }

  function DoPublish(f: Fetchers, w: nat, giveUp: bool): Fetchers
    requires HasWorker(f, w) && f.workers[w].Fetched? && (giveUp || SlotFree(f, f.workers[w].i))
  {
    if giveUp then f.(workers := f.workers[w := Gone])
    else f.(slots := f.slots[f.workers[w].i := Some(f.workers[w].b)], workers := f.workers[w := Idle])
  }

  /** The drainer empties slot i. */
  function TakeSlot(f: Fetchers, i: nat): Fetchers
    requires i < |f.slots|
  {
    f.(slots := f.slots[i := None])
  }

  function DoSend(p: Pipe): Pipe
    requires p.drainer.Holding?
  {
    if p.drainer.b.Bad? then p.(out := p.out + [p.drainer.b], drainer := Stopped)
    else p.(out := p.out + [p.drainer.b], drainer := Waiting(p.drainer.i + 1), sent := p.sent + 1)
  }

  /** The head leaves the delivery channel. */
  function PopOut(p: Pipe): Pipe
    requires p.out != []
  {
    if p.out[0].Bad? then p.(out := p.out[1..]) else p.(out := p.out[1..], taken := p.taken + 1)
  }

  /** Read copies out at most k bytes of the current buffer. */
  function DoCopy(r: Client, k: nat): Client
    requires r.cur.Some?
  {
    var rest := r.cur.value.Rest();
    var n := Min(k, |rest|);
    r.(delivered := r.delivered + rest[..n], cur := Some(r.cur.value.Advance(n)))
  }

  function DoReceive(c: Config, s: State): State
    requires Enabled(c, s, Receive)
  {
    var i := s.p.drainer.i;
    if i >= |s.f.slots| then s.(p := s.p.(drainer := Stopped))
    else s.(f := TakeSlot(s.f, i),
            p := s.p.(drainer := Holding(i, Trim(c, i, s.f.slots[i].value)), recvd := s.p.recvd + 1))
  }

  /** Read or Prime receives from the delivery channel. */
  function DoPull(s: State): State {
    if s.p.out == [] then s.(r := s.r.(err := Some(EndOfFile)))
    else if s.p.out[0].Bad? then s.(p := PopOut(s.p), r := s.r.(err := Some(s.p.out[0].err)))
    else s.(p := PopOut(s.p), r := s.r.(cur := Some(Cursor(s.p.out[0].data, 0))))
  }

  /** The goroutine that Close starts throws a buffer away. */
  function DoDiscard(p: Pipe): Pipe
    requires p.out != []
  {
    if p.out[0].Bad? then PopOut(p) else PopOut(p).(dropped := p.dropped + 1)
  }

  function Next(c: Config, s: State, step: Step): State
    requires Enabled(c, s, step)
  {
    match step
    case Claim(w) => s.(f := DoClaim(s.f, w))
    case Check(w) => s.(f := DoCheck(s.f, w, s.cancelled))
    case Finish(w, aborted) => s.(f := DoFinish(c, s.f, w, aborted))
    case Publish(w, giveUp) => s.(f := DoPublish(s.f, w, giveUp))
    case Receive => DoReceive(c, s)
    case Send => s.(p := DoSend(s.p))
    case Abandon => s.(p := s.p.(drainer := Stopped))
    case Pull => DoPull(s)
    case SkipEmpty => s.(r := s.r.(cur := None))
    case Copy(k) => s.(r := DoCopy(s.r, k))
    case Cancel => s.(cancelled := true)
    case Close => s.(closed := true, cancelled := true)
    case Discard => s.(p := DoDiscard(s.p))
  }

  /** The state after a schedule; a step that is not enabled is skipped. */
  function Exec(c: Config, steps: seq<Step>): State {
    if steps == [] then Init(c)
    else
      var s := Exec(c, steps[..|steps| - 1]);
      var step := steps[|steps| - 1];
      if Enabled(c, s, step) then Next(c, s, step) else s
  }
}
