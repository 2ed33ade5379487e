/** What a first open does to a frame that is being received: it resets the receiver's bit
    index while the sample timer goes on. */
module BitbangReopen {
  import opened Basics
  import opened BitbangFrame
  import opened BitbangDevice
  import opened BitbangHalves

  /** The receive half and whether its sample timer runs. */
  datatype RxSys = RxSys(rx: Rx, active: bool)

  datatype RxEvent = Due(level: bool) | Edge(level: bool) | Reopen

  function After(s: RxSys, e: RxEvent): RxSys {
    match e
    case Due(level) =>
      if !s.active then s else RxSys(RxCallback(s.rx, level).rx, RxCallback(s.rx, level).restart)
    case Edge(level) => if !level && s.rx.idx == -1 then s.(active := true) else s
    case Reopen => s.(rx := s.rx.(idx := -1, fifo := []))
  }

  function AfterAll(s: RxSys, es: seq<RxEvent>): RxSys {
    if es == [] then s else After(AfterAll(s, es[..|es| - 1]), es[|es| - 1])
  }

  /** In the middle of a frame the timer runs, and the index guard is never hit. */
  predicate Running(s: RxSys) {
    -1 <= s.rx.idx <= 9 && (s.rx.idx >= 0 ==> s.active)
  }

  lemma {:induction false} RxNeverStalls(s: RxSys, es: seq<RxEvent>)
    requires Running(s)
    ensures Running(AfterAll(s, es))
  {
    hide ParityEven8, InsertBit, PushOverwriting;
    if es != [] {
      RxNeverStalls(s, es[..|es| - 1]);
    }
  }

  /** The first n of these levels, each sampled when the timer is due. */
  function Samples(s: RxSys, levels: seq<bool>, n: nat): RxSys
    requires n <= |levels|
  {
    if n == 0 then s else After(Samples(s, levels, n - 1), Due(levels[n - 1]))
  }

  /** Frames accepted and errors counted behind a start bit. */
  function Judged(rx: Rx): int {
    rx.counter + rx.errsParity + rx.errsStop
  }

  /** The rest of a frame: nothing is decided before the stop sample, which ends it. */
  lemma {:induction false} RestOfReception(s: RxSys, r: seq<bool>, n: nat)
    requires s.active && 0 <= s.rx.idx <= 9 && n <= |r| == 10 - s.rx.idx
    ensures var e := Samples(s, r, n);
            if n < |r| then e.active && e.rx.idx == s.rx.idx + n && Judged(e.rx) == Judged(s.rx)
            else !e.active && e.rx.idx == -1 && Judged(e.rx) > Judged(s.rx)
  {
    hide ParityEven8, InsertBit, PushOverwriting;
    if n > 0 {
      RestOfReception(s, r, n - 1);
    }
  }

  /** Ten samples or fewer from a low one complete no frame. */
  lemma {:induction false} FalseStart(s: RxSys, r: seq<bool>, n: nat)
    requires s.active && s.rx.idx == -1 && 1 <= n <= |r| && n <= 10 && !r[0]
    ensures var e := Samples(s, r, n);
            && e.active && e.rx.idx == n - 1 && e.rx.fifo == s.rx.fifo
            && e.rx.counter == s.rx.counter && e.rx.errsStart == s.rx.errsStart
            && e.rx.errsParity == s.rx.errsParity && e.rx.errsStop == s.rx.errsStop
  {
    hide ParityEven8, InsertBit, PushOverwriting;
    if n == 1 {
      assert Samples(s, r, 0) == s;
    } else {
      FalseStart(s, r, n - 1);
    }
  }

  /** A high first sample is a start error and stops the timer. */
  lemma {:induction false} NoStart(s: RxSys, r: seq<bool>, n: nat)
    requires s.active && s.rx.idx == -1 && 1 <= n <= |r| && r[0]
    ensures Samples(s, r, n) == RxSys(s.rx.(errsStart := s.rx.errsStart + 1), false)
  {
    if n == 1 {
      assert Samples(s, r, 0) == s;
    } else {
      NoStart(s, r, n - 1);
    }
  }

  predicate AlikeButQueue(a: RxSys, b: RxSys) {
    a.active == b.active && a.rx == b.rx.(fifo := a.rx.fifo)
  }

  lemma {:induction false} QueueDecidesNothing(a: RxSys, b: RxSys, r: seq<bool>, n: nat)
    requires AlikeButQueue(a, b) && n <= |r|
    ensures AlikeButQueue(Samples(a, r, n), Samples(b, r, n))
  {
    hide After, AlikeButQueue;
    if n > 0 {
      QueueDecidesNothing(a, b, r, n - 1);
      SampleIgnoresQueue(Samples(a, r, n - 1), Samples(b, r, n - 1), r[n - 1]);
    }
  }

  lemma SampleIgnoresQueue(a: RxSys, b: RxSys, level: bool)
    requires AlikeButQueue(a, b)
    ensures AlikeButQueue(After(a, Due(level)), After(b, Due(level)))
  {
    hide ParityEven8, InsertBit, PushOverwriting;
  }

  /** A first open while the frame's remaining levels are still to be sampled.  In the middle
      of a frame that frame is neither accepted nor counted as an error: its next level is
      taken for a start bit, and if it is low the receiver is in the middle of a frame that
      is not there when the true one ends.  Apart from the queue, which a first open always
      empties, it is harmless exactly between frames. */
  lemma ReopenCutsReception(s: RxSys, r: seq<bool>)
    requires s.active && -1 <= s.rx.idx <= 9 && |r| == 10 - s.rx.idx
    ensures var kept, cut := Samples(s, r, |r|), Samples(After(s, Reopen), r, |r|);
            && (AlikeButQueue(cut, kept) <==> s.rx.idx == -1)
            && (s.rx.idx >= 0 ==>
                  && Judged(kept.rx) > Judged(s.rx) && Judged(cut.rx) == Judged(s.rx)
                  && cut.rx.counter == s.rx.counter && cut.rx.fifo == []
                  && cut.rx.errsStart == s.rx.errsStart + (if r[0] then 1 else 0)
                  && cut.active == !r[0] && cut.rx.idx == if r[0] then -1 else 9 - s.rx.idx)
  {
    hide Samples;
    if s.rx.idx == -1 {
      QueueDecidesNothing(After(s, Reopen), s, r, |r|);
    } else {
      RestOfReception(s, r, |r|);
      if r[0] {
        NoStart(After(s, Reopen), r, |r|);
      } else {
        FalseStart(After(s, Reopen), r, |r|);
      }
    }
  }

  // -------- a byte that was never sent --------

  lemma {:induction false} SamplesAreFeed(s: RxSys, r: seq<bool>, n: nat)
    requires s.active && s.rx.idx == -1 && |r| == 11 && !r[0] && n <= 11
    ensures var e := Samples(s, r, n);
            e.rx == Feed(s.rx, r, n) && e.active == (n < 11) && e.rx.idx == if n < 11 then n - 1 else -1
  {
    hide ParityEven8, InsertBit, PushOverwriting;
    if n > 0 {
      SamplesAreFeed(s, r, n - 1);
    }
  }

  /** The levels of an idle line behind the frame of 00, from its last data bit on. */
  const BEHIND: seq<bool> := [false, false, true, true, true, true, true, true, true, true, true]

  lemma BehindIsFrameEnd()
    ensures BEHIND[..4] == Frame(0)[8..] && forall i :: 4 <= i < 11 ==> BEHIND[i]
  {
    var b := DataBits(0);
    assert b[7] == Bit(0, 7) == false;
    assert Frame(0)[8] == b[7];
    assert !ParityEven8(0);
  }

  /** An open just before the last data bit of 00 makes the receiver accept FE. */
  lemma ReopenReceivesWrongByte(s: RxSys)
    requires s.active && s.rx.idx == 7
    ensures var e := Samples(After(s, Reopen), BEHIND, 11);
            e.rx.fifo == [0xFE] && e.rx.counter == s.rx.counter + 1 && !e.active
  {
    var o := After(s, Reopen);
    SamplesAreFeed(o, BEHIND, 11);
    FrameOutcome(o.rx, BEHIND);
    var d := Feed(o.rx, BEHIND, 11).data;
    BitsOfFE(d);
    hide Samples, Feed;
  }

  lemma BitsOfFE(d: byte)
    requires DataBits(d) == BEHIND[1..9]
    ensures d == 0xFE && ParityEven8(d)
  {
    forall i | 0 <= i < 8
      ensures Bit(d, i) == Bit(0xFE, i)
    {
      assert DataBits(d)[i] == BEHIND[i + 1];
    }
    BitsDetermineByte(d, 0xFE);
  }
}
