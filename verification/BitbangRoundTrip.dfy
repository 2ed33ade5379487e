/** Inside the skew bound the link is faithful on every run: the inductive invariant
    over all interleavings of timer callbacks, interrupts, writers and readers. */
module BitbangRoundTrip {
  import opened Basics
  import opened BitbangFrame
  import opened BitbangDevice
  import opened BitbangLink

  function Mul(k: int, x: real): real {
    k as real * x
  }

  lemma MulNext(k: int, x: real)
    ensures Mul(k + 1, x) == Mul(k, x) + x
  {
  }

  lemma MulMono(j: int, k: int, x: real)
    requires j <= k && x > 0.0
    ensures Mul(j, x) <= Mul(k, x)
  {
    assert (k - j) as real * x >= 0.0;
    assert Mul(k, x) - Mul(j, x) == (k - j) as real * x;
  }

  /** Sample k of a frame, taken at most three latencies late, falls strictly inside
      bit k on the wire; the stop sample may use both stop bits. */
  lemma SampleWindow(p: Params, k: nat)
    requires Legal(p) && Bound(p) && k <= 10
    ensures Mul(k, p.pt) + p.late < p.pr / 2.0 + Mul(k, p.pr)
    ensures p.pr / 2.0 + Mul(k, p.pr) + 3.0 * p.late < Mul(if k == 10 then 12 else k + 1, p.pt)
    ensures 2.0 * p.late < p.pt
  {
    if k == 0 {} else if k == 1 {} else if k == 2 {} else if k == 3 {} else if k == 4 {} else if k == 5 {}
    else if k == 6 {} else if k == 7 {} else if k == 8 {} else if k == 9 {} else { assert k == 10; }
  }

  // ======== the invariant ========

  /** Levels driven so far in the current frame, minus one; 11 after the last one. */
  function LevelNo(tx: Tx): int {
    if tx.idx == -1 then 11 else tx.idx
  }

  /** When the current frame's start callback was due. */
  function FrameStart(p: Params, l: Link): real
    requires l.txTimer.Some?
  {
    l.txTimer.value - Mul(LevelNo(l.tx) + 1, p.pt)
  }

  /** The receiver's registers after k samples of a frame of d. */
  predicate Sampled(rx: Rx, d: byte, k: nat)
    requires k <= 10
  {
    && (k >= 1 ==> Assembled(rx.data, DataBits(d), if k <= 9 then k - 1 else 8))
    && (k == 10 ==> rx.parity == ParityEven8(d))
  }

  predicate Sane(p: Params, l: Link) {
    && -1 <= l.tx.idx <= 10 && |l.tx.fifo| <= FIFO_SIZE
    && Timely(p, l, l.now)
    && (l.txTimer.None? ==> l.tx.idx == -1)
    && (l.txTimer.None? && l.pending == 0 ==> l.tx.fifo == [])
    && l.rx.errsStart == l.rx.errsStop == l.rx.errsParity == 0
  }

  /** Between frames. */
  predicate Quiet(l: Link) {
    && l.tx.idx == -1 && l.line && l.irq.None? && l.rx.idx == -1 && l.rxTimer.None?
    && l.written == l.accepted + l.tx.fifo
  }

  /** The start edge has not been served yet. */
  predicate Waiting(l: Link) {
    l.irq.Some? && l.tx.idx == 0 && l.rx.idx == -1 && l.rxTimer.None?
  }

  /** The receiver is rx.idx + 1 samples into the frame that began at x0. */
  predicate Busy(p: Params, l: Link, x0: real) {
    var k := l.rx.idx + 1;
    && 0 <= k <= 10 && l.rxTimer.Some?
    && x0 + p.pr / 2.0 + Mul(k, p.pr) <= l.rxTimer.value <= x0 + p.pr / 2.0 + Mul(k, p.pr) + 2.0 * p.late
    && Sampled(l.rx, l.tx.data, k)
    && (k == 0 ==> l.tx.idx == 0 && l.irq.None?)
  }

  /** The receiver has finished while the second stop bit is still to be driven. */
  predicate Done(l: Link) {
    l.tx.idx == 10 && l.irq.None? && l.rx.idx == -1 && l.rxTimer.None?
  }

  /** Where the transmitter is within its frame. */
  predicate OnWire(p: Params, l: Link, x0: real) {
    var j := LevelNo(l.tx);
    && 0 <= j <= 11 && l.tx.parity == ParityEven8(l.tx.data)
    && x0 + Mul(j, p.pt) <= l.now && l.line == Level(l.tx.data, j)
    && (l.irq.Some? ==> j <= 9 && !l.line && l.irq.value <= x0 + Mul(j, p.pt) + p.late)
  }

  predicate InFrame(p: Params, l: Link) {
    && l.txTimer.Some?
    && var x0 := FrameStart(p, l);
       && OnWire(p, l, x0)
       && (Waiting(l) || Busy(p, l, x0) || Done(l))
       && l.written == l.accepted + (if Done(l) then [] else [l.tx.data]) + l.tx.fifo
  }

  predicate Good(p: Params, l: Link) {
    Sane(p, l) && (Quiet(l) || InFrame(p, l))
  }

  // ======== every event keeps it ========

  lemma MulSmall(x: real)
    ensures Mul(0, x) == 0.0 && Mul(1, x) == x
  {
  }

  lemma StartFrame(p: Params, l: Link, t: real)
    requires Legal(p) && Bound(p) && Sane(p, l) && Quiet(l)
    requires Enabled(p, l, Event(t, TxFire))
    ensures Good(p, TxFired(p, l, t))
  {
    hide Mul, ParityEven8;
    var e := TxFired(p, l, t);
    if l.tx.fifo != [] {
      MulSmall(p.pt);
      assert FrameStart(p, e) == l.txTimer.value;
      assert [l.tx.fifo[0]] + l.tx.fifo[1..] == l.tx.fifo;
      assert e.accepted + [l.tx.fifo[0]] + l.tx.fifo[1..] == l.accepted + l.tx.fifo;
      assert Waiting(e) && !Done(e);
      assert InFrame(p, e);
    }
  }

  /** When the transmitter moves on, the receiver has taken the sample of this bit and
      every earlier edge has been served. */
  lemma TxReady(p: Params, l: Link, t: real)
    requires Legal(p) && Bound(p) && Sane(p, l) && InFrame(p, l)
    requires Enabled(p, l, Event(t, TxFire))
    ensures l.irq.None? && 0 <= l.tx.idx
    ensures Done(l) || (Busy(p, l, FrameStart(p, l)) && l.rx.idx != -1)
  {
    hide Mul, ParityEven8, Level, Sampled;
    var x0 := FrameStart(p, l);
    var j := LevelNo(l.tx);
    MulNext(j, p.pt);
    if Busy(p, l, x0) {
      var k := l.rx.idx + 1;
      SampleWindow(p, k);
      MulMono(k + 1, 12, p.pt);
    }
    SampleWindow(p, 0);
  }

  /** What the wire and the transmitter look like behind a level of a frame. */
  lemma LevelDriven(p: Params, l: Link, t: real)
    requires Sane(p, l) && InFrame(p, l) && 0 <= l.tx.idx && l.irq.None?
    requires l.txTimer.value <= t <= l.txTimer.value + p.late
    ensures var e, x0 := TxFired(p, l, t), FrameStart(p, l);
            && -1 <= e.tx.idx <= 10 && e.now == t && e.rx == l.rx && e.rxTimer == l.rxTimer
            && e.irq == (if l.line && !e.line then Some(t) else None)
            && e.pending == l.pending && e.written == l.written && e.accepted == l.accepted
            && e.tx.data == l.tx.data && e.tx.fifo == l.tx.fifo && e.txTimer == Some(l.txTimer.value + p.pt)
            && e.tx.parity == l.tx.parity && LevelNo(e.tx) == LevelNo(l.tx) + 1 && FrameStart(p, e) == x0
            && e.line == Level(l.tx.data, LevelNo(l.tx) + 1) && OnWire(p, e, x0)
  {
    hide Mul, ParityEven8, Bit, Sampled;
    MulNext(LevelNo(l.tx) + 1, p.pt);
  }

  lemma NextLevel(p: Params, l: Link, t: real)
    requires Legal(p) && Bound(p) && Sane(p, l) && InFrame(p, l)
    requires Enabled(p, l, Event(t, TxFire))
    ensures Good(p, TxFired(p, l, t))
  {
    TxReady(p, l, t);
    hide Mul, ParityEven8, Bit, Sampled;
    var e := TxFired(p, l, t);
    var x0 := FrameStart(p, l);
    LevelDriven(p, l, t);
    hide TxFired;
    assert Sane(p, e);
    if Done(l) {
      assert e.tx.idx == -1 && e.line && e.irq.None?;
      assert Quiet(e);
    } else {
      assert Busy(p, e, x0);
      assert InFrame(p, e);
    }
  }

  /** The heart: the level sampled is the level of the bit the sample is meant for. */
  lemma SampleSeesItsBit(p: Params, l: Link, t: real)
    requires Legal(p) && Bound(p) && Sane(p, l) && InFrame(p, l)
    requires Enabled(p, l, Event(t, RxFire))
    ensures 0 <= l.rx.idx + 1 <= 10 && Busy(p, l, FrameStart(p, l))
    ensures l.line == Level(l.tx.data, l.rx.idx + 1)
    ensures LevelNo(l.tx) == l.rx.idx + 1 || (l.rx.idx == 9 && LevelNo(l.tx) == 11)
  {
    hide Mul, ParityEven8, Bit, Sampled;
    var x0 := FrameStart(p, l);
    var j := LevelNo(l.tx);
    var k := l.rx.idx + 1;
    SampleWindow(p, k);
    var next := if k == 10 then 12 else k + 1;
    if j >= next {
      MulMono(next, j, p.pt);
      assert false;
    }
    if j < k {
      MulMono(j + 1, k, p.pt);
      assert false;
    }
  }

  lemma TakeSample(p: Params, l: Link, t: real)
    requires Legal(p) && Bound(p) && Sane(p, l) && InFrame(p, l)
    requires Enabled(p, l, Event(t, RxFire)) && l.rx.idx < 9
    ensures Good(p, RxFired(p, l, t))
  {
    SampleSeesItsBit(p, l, t);
    hide Mul, ParityEven8, Bit, InsertBit, Assembled, DataBits;
    var e := RxFired(p, l, t);
    var x0 := FrameStart(p, l);
    var k := l.rx.idx + 1;
    var d := l.tx.data;
    MulNext(k, p.pr);
    assert FrameStart(p, e) == x0;
    if 1 <= k <= 8 {
      InsertExtends(l.rx.data, DataBits(d), k - 1);
      assert DataBits(d)[k - 1] == l.line;
    } else if k == 0 {
    }
    assert Sampled(e.rx, d, k + 1);
    assert Busy(p, e, x0);
    assert InFrame(p, e);
  }

  lemma TakeStopSample(p: Params, l: Link, t: real)
    requires Legal(p) && Bound(p) && Sane(p, l) && InFrame(p, l)
    requires Enabled(p, l, Event(t, RxFire)) && l.rx.idx == 9
    ensures Good(p, RxFired(p, l, t))
  {
    SampleSeesItsBit(p, l, t);
    hide Mul, ParityEven8, Bit, InsertBit, Assembled, DataBits, PushOverwriting;
    var e := RxFired(p, l, t);
    var d := l.tx.data;
    assert FrameStart(p, e) == FrameStart(p, l);
    assert l.rx.data == d by {
      AssembledByte(l.rx.data, d);
    }
    assert e.accepted == l.accepted + [d];
    assert Done(e) || Quiet(e);
  }

  lemma AssembledByte(x: byte, d: byte)
    requires Assembled(x, DataBits(d), 8)
    ensures x == d
  {
    hide Bit;
    var s := DataBits(d);
    forall i | 0 <= i < 8
      ensures Bit(x, i) == Bit(d, i)
    {
      assert Bit(x, i) == s[i + 8 - 8];
    }
    BitsDetermineByte(x, d);
  }

  lemma ServeEdge(p: Params, l: Link, t: real)
    requires Legal(p) && Bound(p) && Sane(p, l) && InFrame(p, l)
    requires Enabled(p, l, Event(t, Irq))
    ensures Good(p, IrqServed(p, l, t))
  {
    hide Mul, ParityEven8, Bit, Assembled, DataBits;
    var e := IrqServed(p, l, t);
    var x0 := FrameStart(p, l);
    MulSmall(p.pt);
    MulSmall(p.pr);
    assert FrameStart(p, e) == x0;
    assert Busy(p, e, x0);
    assert InFrame(p, e);
  }

  lemma GoodStep(p: Params, l: Link, ev: Event)
    requires Legal(p) && Bound(p) && Good(p, l) && Enabled(p, l, ev)
    ensures Good(p, Apply(p, l, ev))
  {
    match ev.act
    case TxFire =>
      if Quiet(l) {
        StartFrame(p, l, ev.at);
      } else {
        NextLevel(p, l, ev.at);
      }
    case RxFire =>
      if l.rx.idx == 9 {
        TakeStopSample(p, l, ev.at);
      } else {
        SampleSeesItsBit(p, l, ev.at);
        TakeSample(p, l, ev.at);
      }
    case Irq => ServeEdge(p, l, ev.at);
    case Write(bytes) => GoodQueueing(p, l, ev);
    case Kick => GoodQueueing(p, l, ev);
    case Read(count) => GoodQueueing(p, l, ev);
  }

  lemma GoodQueueing(p: Params, l: Link, ev: Event)
    requires Legal(p) && Bound(p) && Good(p, l) && Enabled(p, l, ev)
    requires ev.act.Write? || ev.act.Kick? || ev.act.Read?
    ensures Good(p, Apply(p, l, ev))
  {
    hide Mul, ParityEven8, Bit, Assembled, DataBits, Level;
    var e := Apply(p, l, ev);
    if ev.act.Write? {
      var n := Copied(l.tx.fifo, |ev.act.bytes|);
      var more := ev.act.bytes[..n];
      if Quiet(l) {
        assert e.written == l.accepted + (l.tx.fifo + more);
      } else {
        var held := if Done(l) then [] else [l.tx.data];
        assert e.written == l.accepted + held + (l.tx.fifo + more);
      }
    }
    if Quiet(l) {
      assert Quiet(e);
    } else {
      assert FrameStart(p, e) == FrameStart(p, l);
      assert InFrame(p, e);
    }
  }

  lemma {:induction false} GoodRun(p: Params, l: Link, es: seq<Event>)
    requires Legal(p) && Bound(p) && Good(p, l) && Admissible(p, l, es)
    ensures Good(p, Final(p, l, es))
    decreases |es|
  {
    if es != [] {
      GoodStep(p, l, es[0]);
      GoodRun(p, Apply(p, l, es[0]), es[1..]);
    }
  }

  lemma GoodIsCorrect(p: Params, l: Link)
    requires Good(p, l)
    ensures Correct(l)
  {
    hide Mul, ParityEven8, Level, Sampled;
    if Quiet(l) {
      assert l.written == l.accepted + l.tx.fifo;
    } else {
      var held := if Done(l) then [] else [l.tx.data];
      assert l.written == l.accepted + (held + l.tx.fifo);
    }
  }

  /** Inside the bound every run of the link is correct: whatever the writers, readers
      and latencies do, the bytes accepted are the bytes written, in order. */
  lemma BoundImpliesFaithful(p: Params)
    requires Legal(p) && Bound(p)
    ensures Faithful(p)
  {
    forall l, es | Idle(l) && Admissible(p, l, es)
      ensures Correct(Final(p, l, es))
    {
      var l0 := l;
      assert Timely(p, l0, l0.now);
      assert Good(p, l0);
      GoodRun(p, l, es);
      GoodIsCorrect(p, Final(p, l, es));
    }
  }
}
