/** Whole-run properties of the two halves of the bit-banged UART taken alone. */
module BitbangHalves {
  import opened Basics
  import opened BitbangFrame
  import opened BitbangDevice

  // ======== transmit half ========

  /** A transmit half with its timer, its line, and the writers that have queued
      bytes but not yet looked at the timer. */
  datatype TxSys = TxSys(tx: Tx, active: bool, pending: nat, line: bool)

  datatype TxAction = Tick | Copy(from: seq<byte>) | Kick | FirstOpen

  function TxStep(s: TxSys, a: TxAction): TxSys {
    match a
    case Tick =>
      if !s.active then s
      else
        var o := TxCallback(s.tx);
        s.(tx := o.tx, active := o.restart, line := if o.drive.Some? then o.drive.value else s.line)
    case Copy(from) =>
      var n := Copied(s.tx.fifo, |from|);
      s.(tx := s.tx.(fifo := s.tx.fifo + from[..n]), pending := s.pending + if n > 0 then 1 else 0)
    case Kick =>
      if s.pending == 0 then s else s.(pending := s.pending - 1, active := true)
    case FirstOpen => s.(tx := s.tx.(idx := -1))
  }

  function TxRun(s: TxSys, acts: seq<TxAction>): TxSys {
    if acts == [] then s else TxStep(TxRun(s, acts[..|acts| - 1]), acts[|acts| - 1])
  }

  /** The transmitter never stalls: a stopped timer means nothing is left to send. */
  predicate NoStall(s: TxSys) {
    && -1 <= s.tx.idx <= 10
    && |s.tx.fifo| <= FIFO_SIZE
    && (!s.active ==> s.tx.idx == -1)
    && (!s.active && s.pending == 0 ==> s.tx.fifo == [])
    && (s.tx.idx >= 0 ==> s.tx.parity == ParityEven8(s.tx.data))
  }

  predicate Opened(s: TxSys) {
    s.tx.idx == -1 && s.tx.fifo == [] && !s.active && s.pending == 0
  }

  lemma {:induction false} TxNeverStalls(s: TxSys, acts: seq<TxAction>)
    requires Opened(s)
    ensures NoStall(TxRun(s, acts))
  {
    if acts != [] {
      hide NoStall, TxStep;
      TxNeverStalls(s, acts[..|acts| - 1]);
      NoStallStep(TxRun(s, acts[..|acts| - 1]), acts[|acts| - 1]);
    }
  }

  lemma NoStallStep(s: TxSys, a: TxAction)
    requires NoStall(s)
    ensures NoStall(TxStep(s, a))
  {
    hide ParityEven8, Bit;
  }

  /** Between characters the line rests high. */
  predicate IdleHigh(s: TxSys) {
    s.tx.idx == -1 || s.tx.idx == 10 ==> s.line
  }

  lemma {:induction false} IdleHighUnlessReopened(s: TxSys, acts: seq<TxAction>)
    requires Opened(s) && s.line && FirstOpen !in acts
    ensures IdleHigh(TxRun(s, acts))
  {
    if acts != [] {
      var n := |acts| - 1;
      assert acts[n] in acts;
      IdleHighUnlessReopened(s, acts[..n]);
      TxNeverStalls(s, acts[..n]);
      hide NoStall, TxStep, IdleHigh;
      IdleHighStep(TxRun(s, acts[..n]), acts[n]);
    }
  }

  predicate AlwaysIdleHigh(s: TxSys, acts: seq<TxAction>) {
    forall k :: 0 <= k <= |acts| ==> IdleHigh(TxRun(s, acts[..k]))
  }

  /** Every first open of the run happens to find the line high. */
  predicate ReopensFindHigh(s: TxSys, acts: seq<TxAction>) {
    forall k :: 0 <= k < |acts| && acts[k].FirstOpen? ==> TxRun(s, acts[..k]).line
  }

  /** A first open resets the bit index even while a character is on the line.  A run
      keeps the idle level throughout exactly when each first open in it finds the line high. */
  lemma {:induction false} IdleHighIffReopenedHigh(s: TxSys, acts: seq<TxAction>)
    requires Opened(s) && s.line
    ensures AlwaysIdleHigh(s, acts) <==> ReopensFindHigh(s, acts)
  {
    if acts != [] {
      hide *;
      IdleHighIffReopenedHigh(s, acts[..|acts| - 1]);
      IffKept(s, acts[..|acts| - 1], acts[|acts| - 1]);
      assert acts == acts[..|acts| - 1] + [acts[|acts| - 1]];
    } else {
      NothingDone(s);
    }
  }

  lemma IffKept(s: TxSys, before: seq<TxAction>, a: TxAction)
    requires Opened(s) && (AlwaysIdleHigh(s, before) <==> ReopensFindHigh(s, before))
    ensures AlwaysIdleHigh(s, before + [a]) <==> ReopensFindHigh(s, before + [a])
  {
    hide AlwaysIdleHigh, ReopensFindHigh, NoStall, IdleHigh, TxStep, TxRun;
    TxNeverStalls(s, before);
    OneMoreAction(s, before, a);
    if AlwaysIdleHigh(s, before) {
      IdleHighStep(TxRun(s, before), a);
    }
  }

  lemma OneMoreAction(s: TxSys, before: seq<TxAction>, a: TxAction)
    ensures var acts, l := before + [a], TxRun(s, before);
            && TxRun(s, acts) == TxStep(l, a)
            && (AlwaysIdleHigh(s, before) ==> IdleHigh(l))
            && (AlwaysIdleHigh(s, acts) <==> AlwaysIdleHigh(s, before) && IdleHigh(TxStep(l, a)))
            && (ReopensFindHigh(s, acts) <==> ReopensFindHigh(s, before) && (a.FirstOpen? ==> l.line))
  {
    hide AlwaysIdleHigh, ReopensFindHigh, IdleHigh, TxStep;
    TxRunSnoc(s, before, a);
    IdleHighSnoc(s, before, a);
    ReopensSnoc(s, before, a);
  }

  lemma TxRunSnoc(s: TxSys, before: seq<TxAction>, a: TxAction)
    ensures TxRun(s, before + [a]) == TxStep(TxRun(s, before), a)
  {
    assert (before + [a])[..|before|] == before;
  }

  lemma IdleHighSnoc(s: TxSys, before: seq<TxAction>, a: TxAction)
    ensures AlwaysIdleHigh(s, before) ==> IdleHigh(TxRun(s, before))
    ensures AlwaysIdleHigh(s, before + [a]) <==> AlwaysIdleHigh(s, before) && IdleHigh(TxRun(s, before + [a]))
  {
    hide IdleHigh, TxRun;
    var acts, n := before + [a], |before|;
    assert before[..n] == before && acts[..n + 1] == acts;
    forall k: nat | k <= n
      ensures acts[..k] == before[..k]
    {
    }
  }

  lemma ReopensSnoc(s: TxSys, before: seq<TxAction>, a: TxAction)
    ensures ReopensFindHigh(s, before + [a]) <==>
              ReopensFindHigh(s, before) && (a.FirstOpen? ==> TxRun(s, before).line)
  {
    hide TxRun;
    var acts, n := before + [a], |before|;
    assert acts[n] == a && acts[..n] == before;
    forall k: nat | k < n
      ensures acts[..k] == before[..k] && acts[k] == before[k]
    {
    }
  }

  lemma NothingDone(s: TxSys)
    requires Opened(s) && s.line
    ensures AlwaysIdleHigh(s, []) && ReopensFindHigh(s, [])
  {
    assert TxRun(s, []) == s;
  }

  lemma IdleHighStep(s: TxSys, a: TxAction)
    requires NoStall(s) && IdleHigh(s)
    ensures IdleHigh(TxStep(s, a)) <==> (a.FirstOpen? ==> s.line)
  {
    hide ParityEven8, Bit;
  }

  /** Otherwise the line can be left low for good: one zero byte, cut by a reopen. */
  lemma ReopenMidFrameSticksLow(s: TxSys)
    requires Opened(s) && s.line
    ensures var e := TxRun(s, [Copy([0]), Kick, Tick, FirstOpen, Tick]);
            !e.active && e.tx.fifo == [] && !e.line && e.tx.counter == s.tx.counter
  {
    hide ParityEven8, TxRun;
    TxRunFive(s, Copy([0]), Kick, Tick, FirstOpen, Tick);
    var s1 := TxStep(s, Copy([0]));
    assert s1.tx.fifo == [0] && s1.pending == 1;
    var s3 := TxStep(TxStep(s1, Kick), Tick);
    assert !s3.line && s3.tx.fifo == [] && s3.active;
  }

  lemma TxRunFive(s: TxSys, a: TxAction, b: TxAction, c: TxAction, d: TxAction, e: TxAction)
    ensures TxRun(s, [a, b, c, d, e]) == TxStep(TxStep(TxStep(TxStep(TxStep(s, a), b), c), d), e)
  {
    hide TxStep;
    assert [a, b, c, d, e][..4] == [a, b, c, d];
    assert [a, b, c, d][..3] == [a, b, c];
    assert [a, b, c][..2] == [a, b];
    assert [a, b][..1] == [a];
    assert [a][..0] == [];
    assert TxRun(s, [a]) == TxStep(s, a);
    assert TxRun(s, [a, b]) == TxStep(TxRun(s, [a]), b);
    assert TxRun(s, [a, b, c]) == TxStep(TxRun(s, [a, b]), c);
    assert TxRun(s, [a, b, c, d]) == TxStep(TxRun(s, [a, b, c]), d);
  }

  // -------- draining --------

  function Ticks(s: TxSys, n: nat): TxSys {
    if n == 0 then s else TxStep(Ticks(s, n - 1), Tick)
  }

  /** The levels driven by the first n callbacks. */
  function Driven(s: TxSys, n: nat): seq<bool> {
    if n == 0 then [] else Driven(s, n - 1) + DrivenNow(Ticks(s, n - 1))
  }

  function DrivenNow(s: TxSys): seq<bool> {
    var o := TxCallback(s.tx);
    if s.active && o.drive.Some? then [o.drive.value] else []
  }

  lemma {:induction false} TicksCompose(s: TxSys, a: nat, b: nat)
    ensures Ticks(s, a + b) == Ticks(Ticks(s, a), b)
    ensures Driven(s, a + b) == Driven(s, a) + Driven(Ticks(s, a), b)
  {
    hide *;
    if b == 0 {
      NoTick(s, a);
    } else {
      TicksCompose(s, a, b - 1);
      ComposeOneMore(s, a, b - 1);
      assert a + (b - 1) + 1 == a + b && b - 1 + 1 == b;
    }
  }

  lemma ComposeOneMore(s: TxSys, a: nat, c: nat)
    requires Ticks(s, a + c) == Ticks(Ticks(s, a), c) && Driven(s, a + c) == Driven(s, a) + Driven(Ticks(s, a), c)
    ensures Ticks(s, a + c + 1) == Ticks(Ticks(s, a), c + 1)
    ensures Driven(s, a + c + 1) == Driven(s, a) + Driven(Ticks(s, a), c + 1)
  {
    hide *;
    OneTickMore(s, a + c);
    OneTickMore(Ticks(s, a), c);
    Regroup(Driven(s, a), Driven(Ticks(s, a), c), DrivenNow(Ticks(s, a + c)));
  }

  lemma NoTick(s: TxSys, a: nat)
    ensures Ticks(Ticks(s, a), 0) == Ticks(s, a) && Driven(s, a) == Driven(s, a) + Driven(Ticks(s, a), 0)
  {
    var d := Driven(s, a);
    assert d + [] == d;
  }

  lemma Regroup(x: seq<bool>, y: seq<bool>, z: seq<bool>)
    ensures (x + y) + z == x + (y + z)
  {
  }

  lemma OneTickMore(s: TxSys, n: nat)
    ensures Ticks(s, n + 1) == TxStep(Ticks(s, n), Tick)
    ensures Driven(s, n + 1) == Driven(s, n) + DrivenNow(Ticks(s, n))
  {
  }

  lemma {:induction false} FrameTicks(s: TxSys, k: nat)
    requires s.tx.idx == -1 && s.active && s.tx.fifo != [] && 1 <= k <= 12
    ensures var d := s.tx.fifo[0]; var e := Ticks(s, k);
            && e.active && e.tx.fifo == s.tx.fifo[1..] && e.tx.data == d && e.tx.parity == ParityEven8(d)
            && e.tx.idx == (if k == 12 then -1 else k - 1)
            && e.tx.counter == s.tx.counter + (if k == 12 then 1 else 0)
  {
    hide Bit, ParityEven8, TxStep;
    assert Ticks(s, k) == TxStep(Ticks(s, k - 1), Tick);
    if k == 1 {
      assert Ticks(s, 0) == s;
      StartTick(s);
    } else {
      FrameTicks(s, k - 1);
      NextTick(Ticks(s, k - 1));
    }
  }

  lemma StartTick(s: TxSys)
    requires s.tx.idx == -1 && s.active && s.tx.fifo != []
    ensures var d := s.tx.fifo[0]; var e := TxStep(s, Tick);
            && e.active && e.tx == Tx(0, d, ParityEven8(d), s.tx.fifo[1..], s.tx.counter)
            && DrivenNow(s) == [Level(d, 0)]
  {
    hide ParityEven8;
  }

  /** A callback inside a character drives its next level. */
  lemma NextTick(s: TxSys)
    requires 0 <= s.tx.idx <= 10 && s.active
    ensures var e, last := TxStep(s, Tick), s.tx.idx == 10;
            && e.active && e.tx.fifo == s.tx.fifo && e.tx.data == s.tx.data && e.tx.parity == s.tx.parity
            && e.tx.idx == (if last then -1 else s.tx.idx + 1)
            && e.tx.counter == s.tx.counter + (if last then 1 else 0)
    ensures s.tx.parity == ParityEven8(s.tx.data) ==> DrivenNow(s) == [Level(s.tx.data, s.tx.idx + 1)]
  {
    hide Bit, ParityEven8;
  }

  lemma {:induction false} FrameDriven(s: TxSys, k: nat)
    requires s.tx.idx == -1 && s.active && s.tx.fifo != [] && k <= 12
    ensures Driven(s, k) == Frame(s.tx.fifo[0])[..k]
  {
    hide Bit, ParityEven8, Frame, TxStep, DrivenNow, Level;
    if k > 0 {
      var d := s.tx.fifo[0];
      FrameDriven(s, k - 1);
      LevelIsFrame(d, k - 1);
      if k > 1 {
        FrameTicks(s, k - 1);
        NextTick(Ticks(s, k - 1));
      } else {
        StartTick(s);
      }
      assert DrivenNow(Ticks(s, k - 1)) == [Level(d, k - 1)];
      assert Frame(d)[..k] == Frame(d)[..k - 1] + [Frame(d)[k - 1]];
    }
  }

  function Frames(bytes: seq<byte>): seq<bool> {
    if bytes == [] then [] else Frame(bytes[0]) + Frames(bytes[1..])
  }

  lemma LastTick(s: TxSys)
    requires s.tx.idx == -1 && s.active && s.tx.fifo == []
    ensures Ticks(s, 1) == s.(active := false) && Driven(s, 1) == [] && Ticks(s, 0) == s
  {
    assert Ticks(s, 1) == TxStep(s, Tick);
  }

  /** From the start of a character, n queued bytes keep the timer running for exactly
      12n + 1 callbacks; they drive the n frames in order and count n characters. */
  lemma {:induction false} DrainsExactly(s: TxSys)
    requires s.tx.idx == -1 && s.active
    ensures var n := |s.tx.fifo|; var e := Ticks(s, 12 * n + 1);
            && !e.active && e.tx.idx == -1 && e.tx.fifo == []
            && e.tx.counter == s.tx.counter + n
            && Driven(s, 12 * n + 1) == Frames(s.tx.fifo)
    ensures forall m :: 0 <= m <= 12 * |s.tx.fifo| ==> Ticks(s, m).active
    decreases |s.tx.fifo|
  {
    hide TxStep, DrivenNow, Frame;
    var n := |s.tx.fifo|;
    if n == 0 {
      LastTick(s);
    } else {
      FrameTicks(s, 12);
      FrameDriven(s, 12);
      var t := Ticks(s, 12);
      DrainsExactly(t);
      TicksCompose(s, 12, 12 * (n - 1) + 1);
      assert Frame(s.tx.fifo[0])[..12] == Frame(s.tx.fifo[0]);
      forall m | 0 <= m <= 12 * n
        ensures Ticks(s, m).active
      {
        if m == 0 {
        } else if m <= 12 {
          FrameTicks(s, m);
        } else {
          TicksCompose(s, 12, m - 12);
        }
      }
    }
  }

  // -------- what a reopen costs --------

  lemma {:induction false} RestOfFrame(s: TxSys, k: nat)
    requires s.active && 0 <= s.tx.idx <= 10 && s.tx.parity == ParityEven8(s.tx.data) && k <= 11 - s.tx.idx
    ensures var e := Ticks(s, k);
            && e.active && e.tx.fifo == s.tx.fifo && e.tx.data == s.tx.data && e.tx.parity == s.tx.parity
            && e.tx.idx == (if k == 11 - s.tx.idx then -1 else s.tx.idx + k)
            && e.tx.counter == s.tx.counter + (if k == 11 - s.tx.idx then 1 else 0)
    ensures Driven(s, k) == Frame(s.tx.data)[s.tx.idx + 1..s.tx.idx + 1 + k]
  {
    hide Bit, ParityEven8, Frame, TxStep, DrivenNow, Level;
    if k > 0 {
      var i := s.tx.idx + k;
      RestOfFrame(s, k - 1);
      NextTick(Ticks(s, k - 1));
      LevelIsFrame(s.tx.data, i);
      assert Ticks(s, k) == TxStep(Ticks(s, k - 1), Tick);
      assert Frame(s.tx.data)[s.tx.idx + 1..i + 1] == Frame(s.tx.data)[s.tx.idx + 1..i] + [Frame(s.tx.data)[i]];
    }
  }

  /** Callbacks left for the character on the line. */
  function RestTicks(s: TxSys): nat
    requires NoStall(s)
  {
    if s.tx.idx == -1 then 0 else 11 - s.tx.idx
  }

  /** From anywhere in a run a started transmitter drains what is left of the character on
      the line and then the queue. */
  lemma DrainsFromAnywhere(s: TxSys)
    requires NoStall(s) && s.active
    ensures var n := |s.tx.fifo|; var e := Ticks(s, RestTicks(s) + 12 * n + 1);
            && !e.active && e.tx.fifo == []
            && e.tx.counter == s.tx.counter + n + (if s.tx.idx == -1 then 0 else 1)
            && Driven(s, RestTicks(s) + 12 * n + 1) ==
                 (if s.tx.idx == -1 then [] else Frame(s.tx.data)[s.tx.idx + 1..]) + Frames(s.tx.fifo)
  {
    hide ParityEven8, Frame, Ticks, Driven;
    var r := RestTicks(s);
    if s.tx.idx == -1 {
      DrainsExactly(s);
      assert [] + Frames(s.tx.fifo) == Frames(s.tx.fifo);
    } else {
      RestOfFrame(s, r);
      var t := Ticks(s, r);
      DrainsExactly(t);
      TicksCompose(s, r, 12 * |s.tx.fifo| + 1);
      assert Frame(s.tx.data)[s.tx.idx + 1..12] == Frame(s.tx.data)[s.tx.idx + 1..];
    }
  }

  /** What a first open costs a started transmitter: only the queue is still sent.  The rest
      of the character on the line is never driven and it is not counted, whether the line
      is high or not.  The open is harmless exactly between characters. */
  lemma ReopenCutsCharacter(s: TxSys)
    requires NoStall(s) && s.active
    ensures var n := |s.tx.fifo|; var o := TxStep(s, FirstOpen);
            var kept, cut := Ticks(s, RestTicks(s) + 12 * n + 1), Ticks(o, 12 * n + 1);
            && !cut.active && cut.tx.fifo == [] && Driven(o, 12 * n + 1) == Frames(s.tx.fifo)
            && cut.tx.counter == s.tx.counter + n
            && (cut.tx.counter == kept.tx.counter <==> s.tx.idx == -1)
            && (Driven(o, 12 * n + 1) == Driven(s, RestTicks(s) + 12 * n + 1) <==> s.tx.idx == -1)
  {
    DrainsFromAnywhere(s);
    DrainsExactly(TxStep(s, FirstOpen));
    hide ParityEven8, Frame, Ticks, Driven, Frames;
    if s.tx.idx != -1 {
      assert |Frame(s.tx.data)[s.tx.idx + 1..]| == 11 - s.tx.idx;
    }
  }

  // ======== receive half ========

  /** A receive half with the history since its queue was last reset: accepted bytes,
      the position just behind the last byte read, completed and rejected frames. */
  datatype RxLog = RxLog(rx: Rx, accepted: seq<byte>, mark: int, frames: nat, rejected: nat)

  datatype RxAction = Sample(level: bool) | Read(count: nat)

  function RxStep(l: RxLog, a: RxAction): RxLog {
    match a
    case Sample(level) =>
      var o := RxCallback(l.rx, level);
      var done := l.rx.idx == 9;
      RxLog(o.rx, if o.accepted.Some? then l.accepted + [o.accepted.value] else l.accepted, l.mark,
            l.frames + (if done then 1 else 0), l.rejected + (if done && o.accepted.None? then 1 else 0))
    case Read(count) =>
      var n := if count < |l.rx.fifo| then count else |l.rx.fifo|;
      l.(rx := l.rx.(fifo := l.rx.fifo[n..]),
         mark := if n == 0 then l.mark else |l.accepted| - |l.rx.fifo| + n)
  }

  function RxRun(l: RxLog, acts: seq<RxAction>): RxLog {
    if acts == [] then l else RxStep(RxRun(l, acts[..|acts| - 1]), acts[|acts| - 1])
  }

  /** The queue holds the most recent accepted bytes that were not read, at most 1024. */
  predicate HoldsNewest(l: RxLog) {
    && 0 <= l.mark <= |l.accepted|
    && var from := if |l.accepted| - FIFO_SIZE > l.mark then |l.accepted| - FIFO_SIZE else l.mark;
       l.rx.fifo == l.accepted[from..]
  }

  /** Every completed frame is accepted, or counted by the parity or the stop counter. */
  predicate Accounted(l: RxLog, start: Rx) {
    && l.frames == |l.accepted| + l.rejected
    && l.rx.counter == start.counter + |l.accepted|
    && l.rejected <= (l.rx.errsParity - start.errsParity) + (l.rx.errsStop - start.errsStop) <= 2 * l.rejected
  }

  lemma {:induction false} RxAccounting(start: Rx, acts: seq<RxAction>)
    requires start.fifo == []
    ensures var l := RxRun(RxLog(start, [], 0, 0, 0), acts); HoldsNewest(l) && Accounted(l, start)
  {
    if acts != [] {
      var n := |acts| - 1;
      RxAccounting(start, acts[..n]);
      RxStepAccounting(RxRun(RxLog(start, [], 0, 0, 0), acts[..n]), start, acts[n]);
    }
  }

  lemma RxStepAccounting(l: RxLog, start: Rx, a: RxAction)
    requires HoldsNewest(l) && Accounted(l, start)
    ensures HoldsNewest(RxStep(l, a)) && Accounted(RxStep(l, a), start)
  {
    hide InsertBit, ParityEven8;
    assert Accounted(RxStep(l, a), start) by {
      hide PushOverwriting, HoldsNewest;
    }
    RxStepNewest(l, a);
  }

  lemma RxStepNewest(l: RxLog, a: RxAction)
    requires HoldsNewest(l)
    ensures HoldsNewest(RxStep(l, a))
  {
    match a
    case Sample(level) => SampleKeepsNewest(l, level);
    case Read(count) => ReadKeepsNewest(l, count);
  }

  lemma SampleKeepsNewest(l: RxLog, level: bool)
    requires HoldsNewest(l)
    ensures HoldsNewest(RxStep(l, Sample(level)))
  {
    PushKeepsNewest(l, l.rx.data);
    SampleQueues(l, level);
    hide RxCallback, PushOverwriting;
  }

  /** A sample queues the byte it accepts and else leaves the queue alone. */
  lemma SampleQueues(l: RxLog, level: bool)
    ensures var o := RxCallback(l.rx, level);
            if o.accepted == Some(l.rx.data) then o.rx.fifo == PushOverwriting(l.rx.fifo, l.rx.data)
            else o.accepted == None && o.rx.fifo == l.rx.fifo
  {
    hide InsertBit, ParityEven8, PushOverwriting;
  }

  lemma ReadKeepsNewest(l: RxLog, count: nat)
    requires HoldsNewest(l)
    ensures HoldsNewest(RxStep(l, Read(count)))
  {
    var n := if count < |l.rx.fifo| then count else |l.rx.fifo|;
    var k := |l.accepted| - |l.rx.fifo|;
    assert l.accepted[k..] == l.rx.fifo;
    assert l.accepted[k + n..] == l.rx.fifo[n..];
  }

  lemma PushKeepsNewest(l: RxLog, d: byte)
    requires HoldsNewest(l)
    ensures HoldsNewest(l.(rx := l.rx.(fifo := PushOverwriting(l.rx.fifo, d)), accepted := l.accepted + [d]))
  {
  }

  /** A received frame: eleven samples from an idle receiver. */
  function Feed(rx: Rx, s: seq<bool>, n: nat): Rx
    requires n <= |s|
  {
    if n == 0 then rx else RxCallback(Feed(rx, s, n - 1), s[n - 1]).rx
  }

  lemma {:induction false} FeedData(rx: Rx, s: seq<bool>, k: nat)
    requires rx.idx == -1 && |s| == 11 && !s[0] && k <= 8
    ensures Feed(rx, s, k + 1) == rx.(idx := k, data := ShiftIn(rx.data, s[1..9], k))
  {
    if k == 0 {
      assert Feed(rx, s, 0) == rx;
    } else {
      FeedData(rx, s, k - 1);
      assert s[1..9][k - 1] == s[k];
    }
  }

  /** What a whole frame does: the stored byte has the sampled data bits, and it is
      accepted exactly when the stop level is high and the parity level fits.  A low stop
      level raises the stop counter and nine bits with an odd number of ones the parity
      counter, each on its own. */
  lemma FrameOutcome(rx: Rx, s: seq<bool>)
    requires rx.idx == -1 && |s| == 11 && !s[0]
    ensures var e := Feed(rx, s, 11);
            && DataBits(e.data) == s[1..9]
            && e.idx == -1
            && (e.counter == rx.counter + 1 <==> s[10] && ParityEven8(e.data) == s[9])
            && e.fifo == if s[10] && ParityEven8(e.data) == s[9] then PushOverwriting(rx.fifo, e.data) else rx.fifo
    ensures var e := Feed(rx, s, 11);
            && e.errsStop == rx.errsStop + (if s[10] then 0 else 1)
            && e.errsParity == rx.errsParity + (if CountHigh(s[1..10], 9) % 2 == 1 then 1 else 0)
            && e.errsStart == rx.errsStart
  {
    hide InsertBit, ParityEven8, Bit;
    FeedData(rx, s, 8);
    ShiftInRecovers(rx.data, s[1..9], rx.data);
    assert Feed(rx, s, 10) == RxCallback(Feed(rx, s, 9), s[9]).rx;
    assert Feed(rx, s, 11) == RxCallback(Feed(rx, s, 10), s[10]).rx;
    var bits := s[1..10];
    assert bits[..8] == s[1..9] && bits[8] == s[9];
    ParityFits(Feed(rx, s, 10).data, bits);
  }

  function Flip(s: seq<bool>, f: seq<bool>): (r: seq<bool>)
    requires |s| == |f|
    ensures |r| == |s| && forall i :: 0 <= i < |s| ==> r[i] == (s[i] != f[i])
  {
    seq(|s|, i requires 0 <= i < |s| => s[i] != f[i])
  }

  lemma {:induction false} FlipParity(s: seq<bool>, f: seq<bool>, n: nat)
    requires |s| == |f| && n <= |s|
    ensures CountHigh(Flip(s, f), n) % 2 == (CountHigh(s, n) + CountHigh(f, n)) % 2
  {
    if n > 0 {
      FlipParity(s, f, n - 1);
    }
  }

  /** The levels on the line for byte d whose data and parity bits are hit by the flips f. */
  function Damaged(d: byte, f: seq<bool>, stop: bool): (s: seq<bool>)
    requires |f| == 9
    ensures |s| == 11
  {
    [false] + Flip(DataBits(d) + [ParityEven8(d)], f) + [stop]
  }

  /** Single-bit protection: a frame whose nine data and parity bits were flipped f is
      accepted exactly when the number of flips is even and the stop level is high. */
  lemma OddFlipsRejected(rx: Rx, d: byte, f: seq<bool>, stop: bool)
    requires rx.idx == -1 && |f| == 9
    ensures var e := Feed(rx, Damaged(d, f, stop), 11);
            && (e.counter == rx.counter + 1 <==> stop && CountHigh(f, 9) % 2 == 0)
            && (e.fifo != rx.fifo ==> stop && CountHigh(f, 9) % 2 == 0)
  {
    hide *;
    DamagedParts(d, f, stop);
    FrameOutcome(rx, Damaged(d, f, stop));
    DamagedParity(d, f, Feed(rx, Damaged(d, f, stop), 11).data);
  }

  lemma DamagedParity(d: byte, f: seq<bool>, x: byte)
    requires |f| == 9 && DataBits(x) == Flip(DataBits(d) + [ParityEven8(d)], f)[..8]
    ensures ParityEven8(x) == Flip(DataBits(d) + [ParityEven8(d)], f)[8] <==> CountHigh(f, 9) % 2 == 0
  {
    hide *;
    HitParity(d, f);
    ParityFits(x, Flip(DataBits(d) + [ParityEven8(d)], f));
  }

  lemma HitParity(d: byte, f: seq<bool>)
    requires |f| == 9
    ensures CountHigh(Flip(DataBits(d) + [ParityEven8(d)], f), 9) % 2 == CountHigh(f, 9) % 2
  {
    hide *;
    var sent := DataBits(d) + [ParityEven8(d)];
    SentIsEven(d);
    FlipParity(sent, f, 9);
  }

  lemma DamagedParts(d: byte, f: seq<bool>, stop: bool)
    requires |f| == 9
    ensures var s, hit := Damaged(d, f, stop), Flip(DataBits(d) + [ParityEven8(d)], f);
            !s[0] && s[1..9] == hit[..8] && s[9] == hit[8] && s[10] == stop
  {
    hide ParityEven8, DataBits;
  }

  /** The nine bits sent have an even number of ones. */
  lemma SentIsEven(d: byte)
    ensures CountHigh(DataBits(d) + [ParityEven8(d)], 9) % 2 == 0
  {
    hide ParityEven8, DataBits;
    ParityCountsOnes(d);
    CountHighPrefix(DataBits(d), DataBits(d) + [ParityEven8(d)], 8);
  }

  /** A parity bit fits a byte exactly when the nine bits have an even number of ones. */
  lemma ParityFits(x: byte, bits: seq<bool>)
    requires |bits| == 9 && DataBits(x) == bits[..8]
    ensures ParityEven8(x) == bits[8] <==> CountHigh(bits, 9) % 2 == 0
  {
    hide ParityEven8, DataBits;
    ParityCountsOnes(x);
    CountHighPrefix(DataBits(x), bits, 8);
  }
}
