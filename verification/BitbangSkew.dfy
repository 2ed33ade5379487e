/** The skew bound is exact: the link always settles, and outside the bound some run
    loses or spoils a byte. */
module BitbangSkew {
  import opened Basics
  import opened BitbangFrame
  import opened BitbangDevice
  import opened BitbangLink
  import opened BitbangRoundTrip

  // ======== the link settles ========

  function TxLeft(l: Link): nat
    requires -1 <= l.tx.idx <= 10
  {
    (if l.txTimer.Some? || l.pending > 0 then 12 * |l.tx.fifo| + (if l.tx.idx == -1 then 0 else 11 - l.tx.idx) else 0)
    + (if l.txTimer.Some? then 1 else 0) + l.pending
  }

  /** A bound on the callbacks still to come when nobody writes. */
  function Work(l: Link): nat
    requires -1 <= l.tx.idx <= 10 && -1 <= l.rx.idx <= 9
  {
    13 * TxLeft(l) + l.pending + (if l.irq.Some? then 12 else 0) + (if l.rxTimer.Some? then 10 - l.rx.idx else 0)
  }

  predicate InRange(l: Link) {
    -1 <= l.tx.idx <= 10 && -1 <= l.rx.idx <= 9
  }

  predicate Driver(a: Act) {
    a.TxFire? || a.RxFire? || a.Irq? || a.Kick?
  }

  lemma WorkShrinks(p: Params, l: Link, e: Event)
    requires InRange(l) && Enabled(p, l, e) && Driver(e.act)
    ensures InRange(Apply(p, l, e)) && Work(Apply(p, l, e)) < Work(l)
  {
    hide ParityEven8, Bit, InsertBit, RxCallback;
    match e.act
    case TxFire =>
      TxWorkShrinks(p, l, e.at);
    case RxFire =>
      RxWorkShrinks(p, l, e.at);
    case Irq =>
    case Kick =>
  }

  lemma TxWorkShrinks(p: Params, l: Link, t: real)
    requires InRange(l) && l.txTimer.Some?
    ensures var a := TxFired(p, l, t);
            InRange(a) && TxLeft(a) == TxLeft(l) - 1 && a.pending == l.pending && a.rxTimer == l.rxTimer && a.rx == l.rx
  {
    hide ParityEven8, Bit, InsertBit;
  }

  lemma RxWorkShrinks(p: Params, l: Link, t: real)
    requires InRange(l) && l.rxTimer.Some?
    ensures var a := RxFired(p, l, t); InRange(a) && Work(a) < Work(l)
  {
    hide ParityEven8, Bit, InsertBit, PushOverwriting;
    assert TxLeft(RxFired(p, l, t)) == TxLeft(l);
  }

  /** Unless the link is quiet, some callback can run next. */
  lemma SomethingRuns(p: Params, l: Link) returns (e: Event)
    requires Legal(p) && Timely(p, l, l.now) && !Quiescent(l)
    ensures Enabled(p, l, e) && Driver(e.act)
  {
    var tx := if l.txTimer.Some? then l.txTimer.value else l.now;
    var rx := if l.rxTimer.Some? then l.rxTimer.value else l.now;
    var firstTx := l.txTimer.Some? && (l.rxTimer.None? || tx <= rx);
    if l.irq.Some? && (l.txTimer.None? || l.now <= tx) && (l.rxTimer.None? || l.now <= rx) {
      e := Event(l.now, Irq);
    } else if firstTx && (l.irq.None? || tx <= l.now) {
      e := Event(if tx < l.now then l.now else tx, TxFire);
    } else if l.rxTimer.Some? && (l.irq.None? || rx <= l.now) {
      e := Event(if rx < l.now then l.now else rx, RxFire);
    } else {
      e := Event(l.now, Kick);
    }
  }

  lemma OneMore(p: Params, l: Link, e: Event, rest: seq<Event>)
    requires Enabled(p, l, e) && Admissible(p, Apply(p, l, e), rest)
    ensures Admissible(p, l, [e] + rest) && Final(p, l, [e] + rest) == Final(p, Apply(p, l, e), rest)
  {
    assert ([e] + rest)[1..] == rest;
  }

  /** Every run of the driver's own callbacks is shorter than the work left... */
  lemma {:induction false} DriverRunsEnd(p: Params, l: Link, es: seq<Event>)
    requires InRange(l) && Admissible(p, l, es)
    requires forall i :: 0 <= i < |es| ==> Driver(es[i].act)
    ensures |es| <= Work(l)
    decreases |es|
  {
    if es != [] {
      WorkShrinks(p, l, es[0]);
      DriverRunsEnd(p, Apply(p, l, es[0]), es[1..]);
    }
  }

  /** ... and can be continued until the link is quiet, when everything written has
      been accepted: the round trip. */
  lemma {:induction false} RoundTrip(p: Params, l: Link) returns (es: seq<Event>)
    requires Legal(p) && Bound(p) && Good(p, l) && InRange(l)
    ensures Admissible(p, l, es) && Quiescent(Final(p, l, es))
    ensures Final(p, l, es).accepted == Final(p, l, es).written == l.written
    ensures forall i :: 0 <= i < |es| ==> Driver(es[i].act)
    decreases Work(l)
  {
    if Quiescent(l) {
      es := [];
      GoodIsCorrect(p, l);
    } else {
      var e := SomethingRuns(p, l);
      GoodStep(p, l, e);
      WorkShrinks(p, l, e);
      var rest := RoundTrip(p, Apply(p, l, e));
      OneMore(p, l, e, rest);
      es := [e] + rest;
    }
  }

  // ======== outside the bound ========

  /** A schedule of latencies: late level changes and prompt sampling, or the reverse. */
  datatype Schedule = LateWire | LateReceiver

  function Start(m: Schedule, p: Params): real { if m.LateWire? then 0.0 else p.late }
  function Change(m: Schedule, p: Params): real { if m.LateWire? then p.late else 0.0 }

  /** When sample k of a frame due at x0 is taken under the schedule. */
  function SampleAt(m: Schedule, p: Params, x0: real, k: int): real {
    x0 + 2.0 * Start(m, p) + p.pr / 2.0 + Mul(k, p.pr)
  }

  /** The bound that the schedule exploits is broken. */
  predicate Broken(m: Schedule, p: Params) {
    match m
    case LateWire => 21.0 * p.pr <= 20.0 * p.pt + 2.0 * p.late
    case LateReceiver => 20.0 * p.pt <= 19.0 * p.pr + 6.0 * p.late
  }

  /** Before the zero byte's frame. */
  predicate NotYet(m: Schedule, p: Params, l: Link) {
    && l.tx.idx == -1 && l.tx.fifo == [0] && l.txTimer.Some? && l.now <= l.txTimer.value + Start(m, p)
    && l.line && l.irq.None? && l.rx.idx == -1 && l.rxTimer.None? && l.accepted == []
  }

  /** The transmit side of the zero byte's frame: low until the first stop bit. */
  predicate ZeroOnWire(m: Schedule, p: Params, l: Link) {
    && l.tx.fifo == [] && -1 <= l.tx.idx <= 10
    && (l.txTimer.None? ==> l.tx.idx == -1)
    && (l.txTimer.Some? ==> l.now <= l.txTimer.value + Change(m, p))
    && l.line == (l.tx.idx == -1 || l.tx.idx == 10)
    && (l.tx.idx != -1 ==> l.tx.data == 0 && !l.tx.parity)
  }

  predicate EdgeSeen(m: Schedule, p: Params, l: Link) {
    && l.irq.Some? && l.rx.idx == -1 && l.rxTimer.None? && l.accepted == [] && !l.line && l.txTimer.Some?
    && l.irq.value == FrameStart(p, l) + Start(m, p) && l.now <= l.irq.value + Start(m, p)
  }

  predicate Spoiling(m: Schedule, p: Params, l: Link) {
    var k := l.rx.idx + 1;
    && l.irq.None? && l.rxTimer.Some? && 0 <= k <= 10 && l.accepted == []
    && l.now <= l.rxTimer.value + Start(m, p)
    && (l.txTimer.Some? ==> l.rxTimer.value == SampleAt(m, p, FrameStart(p, l), k))
    && (m.LateWire? ==> !l.line)
    && (m.LateReceiver? && k == 10 ==> l.rx.parity)
  }

  predicate Spoilt(l: Link) {
    && l.irq.None? && l.rx.idx == -1 && l.rxTimer.None?
    && (l.accepted == [] || (|l.accepted| == 1 && ParityEven8(l.accepted[0])))
  }

  /** Every state of the chosen run that sends a single zero byte. */
  predicate Doomed(m: Schedule, p: Params, l: Link) {
    && l.written == [0] && l.pending == 0 && Timely(p, l, l.now)
    && (NotYet(m, p, l) || (ZeroOnWire(m, p, l) && (EdgeSeen(m, p, l) || Spoiling(m, p, l) || Spoilt(l))))
  }

  lemma DoomedStart(m: Schedule, p: Params, l: Link) returns (e: Event)
    requires Legal(p) && Doomed(m, p, l) && NotYet(m, p, l)
    ensures Enabled(p, l, e) && Driver(e.act) && Doomed(m, p, Apply(p, l, e))
  {
    e := Event(l.txTimer.value + Start(m, p), TxFire);
    hide Mul, Bit, ParityEven8;
    MulSmall(p.pt);
    assert FrameStart(p, Apply(p, l, e)) == l.txTimer.value;
    assert EdgeSeen(m, p, Apply(p, l, e));
  }

  /** The transmitter's next level; `due` is when the receiver side acts next. */
  lemma DoomedLevel(m: Schedule, p: Params, l: Link) returns (e: Event)
    requires Legal(p) && Doomed(m, p, l) && ZeroOnWire(m, p, l) && l.txTimer.Some?
    requires var t := l.txTimer.value + Change(m, p);
             && (EdgeSeen(m, p, l) ==> l.tx.idx < 9 && t <= l.irq.value + Start(m, p))
             && (Spoiling(m, p, l) ==> t <= l.rxTimer.value + Start(m, p) && (m.LateWire? ==> l.tx.idx < 9))
    ensures Enabled(p, l, e) && Driver(e.act) && Doomed(m, p, Apply(p, l, e))
  {
    var t := l.txTimer.value + Change(m, p);
    e := Event(t, TxFire);
    if 0 <= l.tx.idx < 8 {
    }
    hide Mul, Bit, ParityEven8;
    var a := Apply(p, l, e);
    MulNext(LevelNo(l.tx) + 1, p.pt);
    assert ZeroOnWire(m, p, a);
    if a.txTimer.Some? {
      assert FrameStart(p, a) == FrameStart(p, l);
    }
    if EdgeSeen(m, p, l) {
      assert EdgeSeen(m, p, a);
    } else if Spoiling(m, p, l) {
      assert Spoiling(m, p, a);
    } else {
      assert Spoilt(a);
    }
  }

  lemma DoomedEdge(m: Schedule, p: Params, l: Link) returns (e: Event)
    requires Legal(p) && Doomed(m, p, l) && ZeroOnWire(m, p, l) && EdgeSeen(m, p, l)
    requires l.irq.value + Start(m, p) <= l.txTimer.value + Change(m, p)
    ensures Enabled(p, l, e) && Driver(e.act) && Doomed(m, p, Apply(p, l, e))
  {
    hide Bit, ParityEven8;
    e := Event(l.irq.value + Start(m, p), Irq);
    MulSmall(p.pr);
    hide Mul;
    assert FrameStart(p, Apply(p, l, e)) == FrameStart(p, l);
    assert Spoiling(m, p, Apply(p, l, e));
  }

  lemma DoomedSample(m: Schedule, p: Params, l: Link) returns (e: Event)
    requires Legal(p) && Broken(m, p) && Doomed(m, p, l) && ZeroOnWire(m, p, l) && Spoiling(m, p, l)
    requires l.txTimer.Some? ==> l.rxTimer.value + Start(m, p) <= l.txTimer.value + Change(m, p)
    requires m.LateReceiver? && l.rx.idx == 8 ==> l.line
    ensures Enabled(p, l, e) && Driver(e.act) && Doomed(m, p, Apply(p, l, e))
  {
    hide Mul, Bit, ParityEven8, InsertBit;
    e := Event(l.rxTimer.value + Start(m, p), RxFire);
    var a := Apply(p, l, e);
    var k := l.rx.idx + 1;
    MulNext(k, p.pr);
    if a.txTimer.Some? {
      assert FrameStart(p, a) == FrameStart(p, l);
    }
    assert ZeroOnWire(m, p, a);
    if k == 10 {
      assert Spoilt(a);
    } else if k == 0 && l.line {
      assert Spoilt(a);
    } else {
      assert Spoiling(m, p, a);
    }
  }

  /** Against a prompt receiver the stop sample of the zero byte comes no later than
      the late stop edge; a late receiver samples parity no earlier than the stop edge. */
  lemma BrokenWindow(m: Schedule, p: Params, x0: real, k: int)
    requires Legal(p) && Broken(m, p) && 0 <= k <= 10
    ensures m.LateWire? ==> SampleAt(m, p, x0, k) <= x0 + Mul(10, p.pt) + p.late
    ensures m.LateReceiver? ==> x0 + Mul(10, p.pt) <= SampleAt(m, p, x0, 9) + p.late
  {
    MulMono(k, 10, p.pr);
  }

  /** The start edge is served long before the stop level goes out. */
  lemma EdgeServedEarly(m: Schedule, p: Params, l: Link)
    requires Legal(p) && Doomed(m, p, l) && ZeroOnWire(m, p, l) && EdgeSeen(m, p, l)
    requires l.txTimer.value + Change(m, p) < l.irq.value + Start(m, p)
    ensures l.tx.idx < 9
  {
    if l.tx.idx >= 1 {
      MulMono(2, LevelNo(l.tx) + 1, p.pt);
    }
  }

  lemma DoomedStep(m: Schedule, p: Params, l: Link) returns (e: Event)
    requires Legal(p) && Broken(m, p) && Doomed(m, p, l) && !Quiescent(l)
    ensures Enabled(p, l, e) && Driver(e.act) && Doomed(m, p, Apply(p, l, e))
  {
    hide Bit, ParityEven8;
    if NotYet(m, p, l) {
      e := DoomedStart(m, p, l);
    } else if EdgeSeen(m, p, l) {
      var j := LevelNo(l.tx);
      if l.irq.value + Start(m, p) <= l.txTimer.value + Change(m, p) {
        e := DoomedEdge(m, p, l);
      } else {
        EdgeServedEarly(m, p, l);
        e := DoomedLevel(m, p, l);
      }
    } else if Spoiling(m, p, l) {
      var k := l.rx.idx + 1;
      var tR := l.rxTimer.value + Start(m, p);
      if l.txTimer.None? {
        e := DoomedSample(m, p, l);
      } else {
        var x0 := FrameStart(p, l);
        var j := LevelNo(l.tx);
        var tT := l.txTimer.value + Change(m, p);
        BrokenWindow(m, p, x0, k);
        if tT < tR || (tT == tR && m.LateReceiver?) {
          if m.LateWire? && j >= 9 {
            MulMono(10, j + 1, p.pt);
            assert false;
          }
          e := DoomedLevel(m, p, l);
        } else {
          if m.LateReceiver? && k == 9 && !l.line {
            MulMono(j + 1, 10, p.pt);
            assert false;
          }
          e := DoomedSample(m, p, l);
        }
      }
    } else {
      e := DoomedLevel(m, p, l);
    }
  }

  lemma {:induction false} DoomedRun(m: Schedule, p: Params, l: Link) returns (es: seq<Event>)
    requires Legal(p) && Broken(m, p) && Doomed(m, p, l) && InRange(l)
    ensures Admissible(p, l, es) && !Correct(Final(p, l, es))
    decreases Work(l)
  {
    if Quiescent(l) {
      es := [];
      assert l.accepted != [0];
    } else {
      var e := DoomedStep(m, p, l);
      WorkShrinks(p, l, e);
      var rest := DoomedRun(m, p, Apply(p, l, e));
      OneMore(p, l, e, rest);
      es := [e] + rest;
    }
  }

  function IdleLink(): Link {
    Link(0.0, Tx(-1, 0, false, [], 0), None, 0, true, None, Rx(-1, 0, false, [], 0, 0, 0, 0), None, [], [])
  }

  /** One byte queued on an idle link, the bit timer running. */
  function Queued(p: Params, d: byte): Link {
    IdleLink().(tx := Tx(-1, 0, false, [d], 0), txTimer := Some(p.pt), written := [d])
  }

  lemma QueueOne(p: Params, d: byte, rest: seq<Event>) returns (es: seq<Event>)
    requires Legal(p) && Admissible(p, Queued(p, d), rest)
    ensures Idle(IdleLink()) && Admissible(p, IdleLink(), es)
    ensures Final(p, IdleLink(), es) == Final(p, Queued(p, d), rest)
  {
    var l0 := IdleLink();
    var w := Event(0.0, Write([d]));
    var k := Event(0.0, Kick);
    assert [d][..1] == [d];
    var l1 := Apply(p, l0, w);
    assert l1 == l0.(tx := Tx(-1, 0, false, [d], 0), written := [d], pending := 1);
    assert Apply(p, l1, k) == Queued(p, d);
    OneMore(p, l1, k, rest);
    OneMore(p, l0, w, [k] + rest);
    es := [w] + ([k] + rest);
  }

  /** The third way out of the bound: the start sample of 0xFF sees the first data bit. */
  lemma StartMissed(p: Params) returns (es: seq<Event>)
    requires Legal(p) && !Broken(LateReceiver, p) && 2.0 * p.pt <= p.pr + 6.0 * p.late
    ensures Admissible(p, Queued(p, 0xFF), es) && !Correct(Final(p, Queued(p, 0xFF), es))
  {
    var l0 := Queued(p, 0xFF);
    var e1 := Event(p.pt + p.late, TxFire);
    var l1 := Apply(p, l0, e1);
    var b := if 2.0 * p.late <= p.pt then p.pt + 2.0 * p.late else 2.0 * p.pt;
    var e2 := Event(b, Irq);
    assert l1.irq == Some(p.pt + p.late) && l1.txTimer == Some(2.0 * p.pt) && l1.rxTimer == None;
    var l2 := Apply(p, l1, e2);
    assert l2.rxTimer == Some(b + p.pr / 2.0);
    var e3 := Event(2.0 * p.pt, TxFire);
    var l3 := Apply(p, l2, e3);
    assert Bit(0xFF, 0);
    assert l3.line && l3.rxTimer == l2.rxTimer && l3.txTimer == Some(3.0 * p.pt) && l3.irq == None;
    var s := b + p.pr / 2.0;
    var e4 := Event(if s < 2.0 * p.pt then 2.0 * p.pt else s, RxFire);
    var l4 := Apply(p, l3, e4);
    assert l4.rx.errsStart == 1;
    assert Final(p, l4, []) == l4;
    OneMore(p, l3, e4, []);
    OneMore(p, l2, e3, [e4] + []);
    OneMore(p, l1, e2, [e3] + ([e4] + []));
    OneMore(p, l0, e1, [e2] + ([e3] + ([e4] + [])));
    es := [e1] + ([e2] + ([e3] + ([e4] + [])));
  }

  lemma OutsideIsUnfaithful(p: Params)
    requires Legal(p) && !Bound(p)
    ensures !Faithful(p)
  {
    var d: byte := 0;
    var rest;
    if Broken(LateWire, p) {
      assert Doomed(LateWire, p, Queued(p, 0));
      rest := DoomedRun(LateWire, p, Queued(p, 0));
    } else if Broken(LateReceiver, p) {
      assert Doomed(LateReceiver, p, Queued(p, 0));
      rest := DoomedRun(LateReceiver, p, Queued(p, 0));
    } else {
      d := 0xFF;
      rest := StartMissed(p);
    }
    var es := QueueOne(p, d, rest);
    assert !Correct(Final(p, IdleLink(), es));
  }

  /** The skew theorem: every run of the link is correct exactly inside the bound. */
  lemma FaithfulIffBound(p: Params)
    requires Legal(p)
    ensures Faithful(p) <==> Bound(p)
  {
    if Bound(p) {
      BoundImpliesFaithful(p);
    } else {
      OutsideIsUnfaithful(p);
    }
  }

  /** With prompt callbacks the bound is the familiar pair of skew limits. */
  lemma PromptBound(p: Params)
    requires Legal(p) && p.late == 0.0
    ensures Bound(p) <==> 20.0 * p.pt < 21.0 * p.pr && 19.0 * p.pr < 20.0 * p.pt
  {
  }

  /** The third bound is not implied by the other two: a receiver two percent fast, latency
      of a fifth of a bit. */
  lemma ThirdBoundIsNeeded()
    ensures var p := Params(1.0, 0.98, 0.2);
            && Legal(p) && 20.0 * p.pt + 2.0 * p.late < 21.0 * p.pr && 19.0 * p.pr + 6.0 * p.late < 20.0 * p.pt
            && !Bound(p) && !Faithful(p)
  {
    FaithfulIffBound(Params(1.0, 0.98, 0.2));
    hide Faithful;
  }
}
