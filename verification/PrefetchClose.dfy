/** What Close does to the order of delivery: nothing to a caller that stops reading, and what a later read can do. */
module PrefetchClose {
  import opened Bytes
  import opened Alignment
  import opened Prefetch
  import opened PrefetchSafety

  // ---------------------------------------------------------------- callers that stop reading

  /** Nothing is received from the delivery channel after Close. */
  ghost predicate NoPullAfterClose(steps: seq<Step>) {
    forall i, j :: 0 <= i < j < |steps| && steps[i].Close? ==> !steps[j].Pull?
  }

  lemma {:induction false} ClosedByClose(c: Config, steps: seq<Step>)
    requires Exec(c, steps).closed
    ensures exists i :: 0 <= i < |steps| && steps[i].Close?
  {
    if steps != [] && !steps[|steps| - 1].Close? {
      var front := steps[..|steps| - 1];
      ClosedByClose(c, front);
      var i :| 0 <= i < |front| && front[i].Close?;
      assert steps[i].Close?;
    }
  }

  /** The bytes out and in hand are a prefix of the range. */
  ghost predicate InRange(c: Config, obj: bytes, r: Client)
    requires c.start <= c.end
  {
    r.delivered + CurRest(r) <= Span(obj, c.start, c.end)
  }

  lemma UndroppedInRange(c: Config, obj: bytes, steps: seq<Step>)
    requires Faithful(c, obj) && Exec(c, steps).p.dropped == 0
    ensures InRange(c, obj, Exec(c, steps).r)
  {
    PiecesTrim(c, obj);
    ExecInv(c, Pieces(c, obj), steps);
    JoinedIsUpto(c, obj, Exec(c, steps).p.taken);
    UptoPrefix(c, obj, Exec(c, steps).p.taken);
  }

  lemma CopyKept(r: Client, k: nat)
    requires r.cur.Some? && r.cur.value.offset <= |r.cur.value.data|
    ensures DoCopy(r, k).delivered + CurRest(DoCopy(r, k)) == r.delivered + CurRest(r)
  {
    var t, rest := DoCopy(r, k), r.cur.value.Rest();
    var n := Min(k, |rest|);
    assert rest == rest[..n] + t.cur.value.Rest();
  }

  lemma HandKept(c: Config, s: State, step: Step)
    requires Enabled(c, s, step) && !step.Pull?
    requires s.r.cur.Some? ==> s.r.cur.value.offset <= |s.r.cur.value.data|
    ensures var t := Next(c, s, step); t.r.delivered + CurRest(t.r) == s.r.delivered + CurRest(s.r)
  {
    if step.Copy? { CopyKept(s.r, step.k); }
  }

  lemma {:induction false} ReadsInRange(c: Config, obj: bytes, steps: seq<Step>)
    requires Faithful(c, obj) && NoPullAfterClose(steps)
    ensures InRange(c, obj, Exec(c, steps).r)
  {
    if Exec(c, steps).p.dropped == 0 {
      UndroppedInRange(c, obj, steps);
    } else {
      var front, step := steps[..|steps| - 1], steps[|steps| - 1];
      var s := Exec(c, front);
      ReadsInRange(c, obj, front);
      if Enabled(c, s, step) {
        DroppedAfterClose(c, obj, steps);
        PiecesTrim(c, obj);
        ExecInv(c, Pieces(c, obj), front);
        HandKept(c, s, step);
      }
    }
  }

  /** A step that leaves something discarded comes after a Close. */
  lemma DroppedAfterClose(c: Config, obj: bytes, steps: seq<Step>)
    requires Faithful(c, obj) && NoPullAfterClose(steps) && steps != [] && Exec(c, steps).p.dropped > 0
    requires Enabled(c, Exec(c, steps[..|steps| - 1]), steps[|steps| - 1])
    ensures !steps[|steps| - 1].Pull?
  {
    var front, step := steps[..|steps| - 1], steps[|steps| - 1];
    if step.Pull? {
      DeliversPrefix(c, obj, front);
      ClosedByClose(c, front);
      var i :| 0 <= i < |front| && front[i].Close?;
      EarlierClose(steps, i);
    }
  }

  lemma EarlierClose(steps: seq<Step>, i: nat)
    requires NoPullAfterClose(steps) && i < |steps| - 1 && steps[..|steps| - 1][i].Close?
    ensures !steps[|steps| - 1].Pull?
  {
    assert steps[i].Close?;
  }

  /** A caller that receives nothing after Close gets a prefix of the range in every interleaving. */
  lemma StopsAtClose(c: Config, obj: bytes, steps: seq<Step>)
    requires Faithful(c, obj) && NoPullAfterClose(steps)
    ensures Exec(c, steps).r.delivered <= Span(obj, c.start, c.end)
  {
    ReadsInRange(c, obj, steps);
    var r := Exec(c, steps).r;
    assert r.delivered == (r.delivered + CurRest(r))[..|r.delivered|];
  }

  // ---------------------------------------------------------------- runs, step by step

  lemma {:induction false} ExecTo(c: Config, steps: seq<Step>, step: Step, t: State)
    requires Enabled(c, Exec(c, steps), step) && Next(c, Exec(c, steps), step) == t
    ensures Exec(c, steps + [step]) == t
  {
    ExecThen(c, steps, step);
  }

  /** Worker 0 fetches window i and publishes it. */
  lemma {:induction false} FetchWindow(c: Config, a: seq<Step>, i: nat) returns (b: seq<Step>)
    requires i < |c.fetch|
    requires var s := Exec(c, a);
             && HasWorker(s.f, 0) && s.f.workers[0].Idle? && s.f.idx == i && SlotFree(s.f, i) && !s.cancelled
    ensures var s := Exec(c, a);
            Exec(c, b) == s.(f := s.f.(idx := i + 1, slots := s.f.slots[i := Some(AsBuffer(c.fetch[i]))]))
  {
    var s := Exec(c, a);
    var f := s.f.(idx := i + 1);
    ExecTo(c, a, Claim(0), s.(f := f.(workers := f.workers[0 := Claimed(i)])));
    b := a + [Claim(0)];
    ExecTo(c, b, Check(0), s.(f := f.(workers := f.workers[0 := Fetching(i)])));
    b := b + [Check(0)];
    ExecTo(c, b, Finish(0, false), s.(f := f.(workers := f.workers[0 := Fetched(i, AsBuffer(c.fetch[i]))])));
    b := b + [Finish(0, false)];
    ExecTo(c, b, Publish(0, false), s.(f := f.(slots := f.slots[i := Some(AsBuffer(c.fetch[i]))])));
    b := b + [Publish(0, false)];
  }

  /** The drainer passes the published window i on. */
  lemma {:induction false} PassOn(c: Config, a: seq<Step>, i: nat) returns (b: seq<Step>)
    requires c.window > 0 && i < |c.fetch| && c.fetch[i].Data?
    requires var s := Exec(c, a);
             && SlotFull(s.f, i) && s.f.slots[i].value == AsBuffer(c.fetch[i])
             && s.p.drainer == Waiting(i) && |s.p.out| < c.outCap
    ensures var s := Exec(c, a);
            Exec(c, b) == s.(f := TakeSlot(s.f, i),
                             p := s.p.(drainer := Waiting(i + 1), recvd := s.p.recvd + 1, sent := s.p.sent + 1,
                                       out := s.p.out + [Trim(c, i, AsBuffer(c.fetch[i]))]))
  {
    var s := Exec(c, a);
    var buf := Trim(c, i, AsBuffer(c.fetch[i]));
    var p := s.p.(recvd := s.p.recvd + 1);
    ExecTo(c, a, Receive, s.(f := TakeSlot(s.f, i), p := p.(drainer := Holding(i, buf))));
    b := a + [Receive];
    ExecTo(c, b, Send, s.(f := TakeSlot(s.f, i),
                          p := p.(drainer := Waiting(i + 1), sent := p.sent + 1, out := p.out + [buf])));
    b := b + [Send];
  }

  /** Window i is fetched and passed on. */
  lemma {:induction false} OneWindow(c: Config, pieces: seq<bytes>, a: seq<Step>, i: nat) returns (b: seq<Step>)
    requires TrimsTo(c, pieces) && i < |c.fetch| && c.fetch[i].Data?
    requires var s := Exec(c, a);
             && HasWorker(s.f, 0) && s.f.workers[0].Idle? && s.f.idx == i && SlotFree(s.f, i) && !s.cancelled
             && s.p.drainer == Waiting(i) && |s.p.out| < c.outCap
    ensures var s := Exec(c, a);
            Exec(c, b) == s.(f := s.f.(idx := i + 1, slots := s.f.slots[i := None]),
                             p := s.p.(drainer := Waiting(i + 1), recvd := s.p.recvd + 1, sent := s.p.sent + 1,
                                       out := s.p.out + [Good(pieces[i])]))
  {
    var s := Exec(c, a);
    b := FetchWindow(c, a, i);
    b := PassOn(c, b, i);
    assert s.f.slots[i := Some(AsBuffer(c.fetch[i]))][i := None] == s.f.slots[i := None];
  }

  /** Everything before window i was read; nothing else is under way. */
  ghost predicate AtWindow(s: State, i: nat, read: bytes) {
    && HasWorker(s.f, 0) && s.f.workers[0].Idle? && s.f.idx == i
    && (forall j :: 0 <= j < |s.f.slots| ==> s.f.slots[j].None?)
    && s.p.drainer == Waiting(i) && s.p.out == [] && s.p.dropped == 0
    && s.r == Client(None, None, read) && !s.cancelled && !s.closed
  }

  /** Read takes the one buffer in the channel and copies all of it out. */
  lemma {:induction false} ReadBuffer(c: Config, a: seq<Step>, d: bytes) returns (b: seq<Step>)
    requires var s := Exec(c, a); s.p.out == [Good(d)] && s.r.cur.None? && s.r.err.None?
    ensures var s := Exec(c, a);
            Exec(c, b) == s.(p := s.p.(out := [], taken := s.p.taken + 1), r := Client(None, None, s.r.delivered + d))
  {
    var s := Exec(c, a);
    var t := s.(p := s.p.(out := [], taken := s.p.taken + 1));
    ExecTo(c, a, Pull, t.(r := s.r.(cur := Some(Cursor(d, 0)))));
    b := a + [Pull];
    if d != [] {
      assert d[0..] == d && d[..|d|] == d;
      ExecTo(c, b, Copy(|d|), t.(r := s.r.(cur := Some(Cursor(d, |d|)), delivered := s.r.delivered + d)));
      b := b + [Copy(|d|)];
    }
    ExecTo(c, b, SkipEmpty, t.(r := Client(None, None, s.r.delivered + d)));
    b := b + [SkipEmpty];
  }

  ghost predicate ReadyAt(c: Config, a: seq<Step>, i: nat, read: bytes) {
    AtWindow(Exec(c, a), i, read) && |Exec(c, a).f.slots| == |c.fetch|
  }

  lemma StartReady(c: Config)
    requires c.workers > 0 && c.fetch != []
    ensures ReadyAt(c, [], 0, [])
  {
  }

  /** ups[j] is what the first j windows hold. */
  ghost predicate Sums(pieces: seq<bytes>, ups: seq<bytes>) {
    |ups| == |pieces| + 1 && ups[0] == [] && forall j :: 0 <= j < |pieces| ==> ups[j + 1] == ups[j] + pieces[j]
  }

  /** The first i windows read in order. */
  lemma {:induction false} ReadThrough(c: Config, pieces: seq<bytes>, ups: seq<bytes>, i: nat) returns (a: seq<Step>)
    requires TrimsTo(c, pieces) && Sums(pieces, ups) && c.outCap > 0 && c.workers > 0 && i <= |c.fetch| && c.fetch != []
    requires forall j :: 0 <= j < i ==> c.fetch[j].Data?
    ensures ReadyAt(c, a, i, ups[i])
  {
    if i == 0 {
      a := [];
      StartReady(c);
    } else {
      var before := ReadThrough(c, pieces, ups, i - 1);
      assert ups[(i - 1) + 1] == ups[i - 1] + pieces[i - 1];
      a := PassWindow(c, pieces, before, i - 1, ups[i - 1]);
    }
  }

  /** Window i went through the channel and was read. */
  function WindowRead(s: State, i: nat, d: bytes): State
    requires i < |s.f.slots|
  {
    s.(f := s.f.(idx := i + 1, slots := s.f.slots[i := None]),
       p := s.p.(drainer := Waiting(i + 1), recvd := s.p.recvd + 1, sent := s.p.sent + 1, out := [],
         taken := s.p.taken + 1),
       r := Client(None, None, s.r.delivered + d))
  }

  lemma {:induction false} PassWindow(c: Config, pieces: seq<bytes>, a: seq<Step>, i: nat, read: bytes)
    returns (b: seq<Step>)
    requires TrimsTo(c, pieces) && c.outCap > 0 && i < |c.fetch| && c.fetch[i].Data?
    requires ReadyAt(c, a, i, read)
    ensures ReadyAt(c, b, i + 1, read + pieces[i])
  {
    var s := Exec(c, a);
    b := OneWindow(c, pieces, a, i);
    b := ReadBuffer(c, b, pieces[i]);
    assert Exec(c, b) == WindowRead(s, i, pieces[i]);
    WindowReadAt(s, i, pieces[i], read);
  }

  lemma WindowReadAt(s: State, i: nat, d: bytes, read: bytes)
    requires AtWindow(s, i, read) && i < |s.f.slots|
    ensures AtWindow(WindowRead(s, i, d), i + 1, read + d)
  {
  }

  /** Close comes while window i waits in the channel and the drainer holds the next one. */
  lemma {:induction false} DiscardOne(c: Config, a: seq<Step>, i: nat, d: bytes, e: bytes) returns (b: seq<Step>)
    requires c.outCap > 0
    requires var s := Exec(c, a);
             && s.p.out == [Good(d)] && s.p.drainer == Holding(i, Good(e)) && s.p.dropped == 0
             && !s.closed && s.r.cur.None? && s.r.err.None?
    ensures var s, t := Exec(c, a), Exec(c, b);
            t.closed && t.p.dropped == 1 && t.p.out == [Good(e)] && t.r == s.r
  {
    var s := Exec(c, a);
    var t := s.(closed := true, cancelled := true);
    ExecTo(c, a, Close, t);
    b := a + [Close];
    t := t.(p := t.p.(out := [], taken := t.p.taken + 1, dropped := 1));
    ExecTo(c, b, Discard, t);
    b := b + [Discard];
    ExecTo(c, b, Send, t.(p := t.p.(out := [Good(e)], drainer := Waiting(i + 1), sent := t.p.sent + 1)));
    b := b + [Send];
  }

  /** The drainer takes the published window i. */
  lemma {:induction false} HoldWindow(c: Config, pieces: seq<bytes>, a: seq<Step>, i: nat) returns (b: seq<Step>)
    requires TrimsTo(c, pieces) && i < |c.fetch| && c.fetch[i].Data?
    requires var s := Exec(c, a);
             && HasWorker(s.f, 0) && s.f.workers[0].Idle? && s.f.idx == i && SlotFree(s.f, i) && !s.cancelled
             && s.p.drainer == Waiting(i)
    ensures var s, t := Exec(c, a), Exec(c, b);
            && t.p == s.p.(drainer := Holding(i, Good(pieces[i])), recvd := s.p.recvd + 1)
            && t.r == s.r && t.closed == s.closed
  {
    b := FetchWindow(c, a, i);
    var s := Exec(c, b);
    ExecTo(c, b, Receive, s.(f := TakeSlot(s.f, i),
                             p := s.p.(drainer := Holding(i, Good(pieces[i])), recvd := s.p.recvd + 1)));
    b := b + [Receive];
  }

  /**
   Read does not look at the closed flag.  Whatever the channel's capacity, and for every window i
   that is not the last, some run reads the windows before i and then, after Close has thrown window i
   away, window i + 1.  The bytes are then out of order exactly when window i + 1 does not start like
   what was due.
   */
  lemma {:induction false} ReadAfterCloseSkips(c: Config, obj: bytes, i: nat) returns (steps: seq<Step>)
    requires Faithful(c, obj) && i + 1 < |c.fetch| && forall j :: 0 <= j <= i + 1 ==> c.fetch[j].Data?
    ensures Exec(c, steps).closed
    ensures Exec(c, steps).r.delivered == Upto(c, obj, i) + Piece(c, obj, i + 1)
    ensures Exec(c, steps).r.delivered <= Span(obj, c.start, c.end) <==> Piece(c, obj, i + 1) <= Due(c, obj, i)
  {
    PiecesTrim(c, obj);
    var ups := UptoSums(c, obj);
    steps := SkipWindow(c, Pieces(c, obj), ups, i);
    SkipIff(c, obj, i, Piece(c, obj, i + 1));
  }

  lemma UptoSums(c: Config, obj: bytes) returns (ups: seq<bytes>)
    requires ValidConfig(c)
    ensures Sums(Pieces(c, obj), ups) && forall j :: 0 <= j <= |c.fetch| ==> ups[j] == Upto(c, obj, j)
  {
    ups := seq(|c.fetch| + 1, j requires 0 <= j => Upto(c, obj, j));
    UptoNone(c, obj);
    forall j | 0 <= j < |c.fetch| ensures ups[j + 1] == ups[j] + Pieces(c, obj)[j] {
      UptoNext(c, obj, j);
    }
  }

  lemma SkipIff(c: Config, obj: bytes, i: nat, next: bytes)
    requires c.window > 0 && c.start <= c.end
    ensures Upto(c, obj, i) + next <= Span(obj, c.start, c.end) <==> next <= Due(c, obj, i)
  {
    UptoThenDue(c, obj, i);
    PrefixCancels(Upto(c, obj, i), next, Due(c, obj, i));
  }

  /** What the range still holds from window i on. */
  function Due(c: Config, obj: bytes, i: nat): bytes
    requires c.window > 0 && c.start <= c.end
  {
    Span(obj, Clip(c.start, c.end, WindowStart(c.start, c.window, i)), c.end)
  }

  lemma UptoThenDue(c: Config, obj: bytes, i: nat)
    requires c.window > 0 && c.start <= c.end
    ensures Span(obj, c.start, c.end) == Upto(c, obj, i) + Due(c, obj, i)
  {
    SpanSplit(obj, c.start, Clip(c.start, c.end, WindowStart(c.start, c.window, i)), c.end);
  }

  lemma PrefixCancels(a: bytes, b: bytes, d: bytes)
    ensures a + b <= a + d <==> b <= d
  {
    if b <= d {
      assert (a + d)[..|a + b|] == a + b;
    }
    if a + b <= a + d {
      assert b == (a + b)[|a|..] && d[..|b|] == (a + d)[|a|..|a + b|];
    }
  }

  lemma {:induction false} SkipWindow(c: Config, pieces: seq<bytes>, ups: seq<bytes>, i: nat) returns (a: seq<Step>)
    requires TrimsTo(c, pieces) && Sums(pieces, ups) && c.outCap > 0 && c.workers > 0 && i + 1 < |c.fetch|
    requires forall j :: 0 <= j <= i + 1 ==> c.fetch[j].Data?
    ensures Exec(c, a).closed && Exec(c, a).r.delivered == ups[i] + pieces[i + 1]
  {
    a := ReadThrough(c, pieces, ups, i);
    a := TwoUnderWay(c, pieces, a, i, ups[i]);
    a := DiscardOne(c, a, i + 1, pieces[i], pieces[i + 1]);
    a := ReadBuffer(c, a, pieces[i + 1]);
  }

  /** Window i waits in the channel and the drainer holds the next one. */
  lemma {:induction false} TwoUnderWay(c: Config, pieces: seq<bytes>, a: seq<Step>, i: nat, read: bytes)
    returns (b: seq<Step>)
    requires TrimsTo(c, pieces) && c.outCap > 0 && i + 1 < |c.fetch| && c.fetch[i].Data? && c.fetch[i + 1].Data?
    requires ReadyAt(c, a, i, read)
    ensures var t := Exec(c, b);
            && t.p.out == [Good(pieces[i])] && t.p.drainer == Holding(i + 1, Good(pieces[i + 1])) && t.p.dropped == 0
            && !t.closed && t.r == Client(None, None, read)
  {
    b := OneWindow(c, pieces, a, i);
    b := HoldWindow(c, pieces, b, i + 1);
  }
}
