/** Two bit-banged UARTs on one wire, each on its own clock: an event system whose
    steps are the driver's atomic callbacks.  Time is real-valued.  A timer callback or
    an interrupt handler may run up to `late` after it became due, never before. */
module BitbangLink {
  import opened Basics
  import opened BitbangDevice

  /** Transmit period, receive period, and the greatest callback latency. */
  datatype Params = Params(pt: real, pr: real, late: real)

  /** Callbacks run before their next period begins, so timers stay on their grid. */
  predicate Legal(p: Params) {
    0.0 < p.pt && 0.0 < p.pr && 0.0 <= p.late < p.pt && p.late < p.pr
  }

  /** Timers hold their next expiry; `irq` the time of an unserved falling edge;
      `pending` the writers between queueing bytes and looking at the timer.  The last
      two fields record every byte queued by a writer and every byte accepted. */
  datatype Link = Link(now: real, tx: Tx, txTimer: Option<real>, pending: nat, line: bool, irq: Option<real>,
                       rx: Rx, rxTimer: Option<real>, written: seq<byte>, accepted: seq<byte>)

  datatype Act = TxFire | RxFire | Irq | Write(bytes: seq<byte>) | Kick | Read(count: nat)

  datatype Event = Event(at: real, act: Act)

  predicate Before(t: real, due: Option<real>, late: real) {
    due.Some? ==> t <= due.value + late
  }

  /** Time moves forward and no due callback is kept waiting longer than `late`. */
  predicate Timely(p: Params, l: Link, t: real) {
    l.now <= t && Before(t, l.txTimer, p.late) && Before(t, l.rxTimer, p.late) && Before(t, l.irq, p.late)
  }

  predicate Enabled(p: Params, l: Link, e: Event) {
    && Timely(p, l, e.at)
    && match e.act
       case TxFire => l.txTimer.Some? && l.txTimer.value <= e.at
       case RxFire => l.rxTimer.Some? && l.rxTimer.value <= e.at
       case Irq => l.irq.Some?
       case Kick => l.pending > 0
       case Write(_) => true
       case Read(_) => true
  }

  /** The wire takes a level; a falling edge raises the receiver's interrupt. */
  function Drive(l: Link, level: bool, t: real): Link {
    l.(line := level, irq := if l.line && !level && l.irq.None? then Some(t) else l.irq)
  }

  function TxFired(p: Params, l: Link, t: real): Link
    requires l.txTimer.Some?
  {
    var o := TxCallback(l.tx);
    var l1 := l.(now := t, tx := o.tx, txTimer := if o.restart then Some(l.txTimer.value + p.pt) else None);
    if o.drive.Some? then Drive(l1, o.drive.value, t) else l1
  }

  function RxFired(p: Params, l: Link, t: real): Link
    requires l.rxTimer.Some?
  {
    var o := RxCallback(l.rx, l.line);
    l.(now := t, rx := o.rx, rxTimer := if o.restart then Some(l.rxTimer.value + p.pr) else None,
       accepted := if o.accepted.Some? then l.accepted + [o.accepted.value] else l.accepted)
  }

  function IrqServed(p: Params, l: Link, t: real): Link {
    l.(now := t, irq := None, rxTimer := if !l.line && l.rx.idx == -1 then Some(t + p.pr / 2.0) else l.rxTimer)
  }

  function Apply(p: Params, l: Link, e: Event): Link
    requires Enabled(p, l, e)
  {
    match e.act
    case TxFire => TxFired(p, l, e.at)
    case RxFire => RxFired(p, l, e.at)
    case Irq => IrqServed(p, l, e.at)
    case Write(bytes) =>
      var n := Copied(l.tx.fifo, |bytes|);
      l.(now := e.at, tx := l.tx.(fifo := l.tx.fifo + bytes[..n]), written := l.written + bytes[..n],
         pending := l.pending + if n > 0 then 1 else 0)
    case Kick =>
      l.(now := e.at, pending := l.pending - 1, txTimer := if l.txTimer.None? then Some(e.at + p.pt) else l.txTimer)
    case Read(count) =>
      var n := if count < |l.rx.fifo| then count else |l.rx.fifo|;
      l.(now := e.at, rx := l.rx.(fifo := l.rx.fifo[n..]))
  }

  /** A run: every event is enabled when it happens. */
  predicate Admissible(p: Params, l: Link, es: seq<Event>)
    decreases |es|
  {
    es == [] || (Enabled(p, l, es[0]) && Admissible(p, Apply(p, l, es[0]), es[1..]))
  }

  function Final(p: Params, l: Link, es: seq<Event>): Link
    requires Admissible(p, l, es)
    decreases |es|
  {
    if es == [] then l else Final(p, Apply(p, l, es[0]), es[1..])
  }

  /** Both devices opened and idle, the line high, nothing written yet. */
  predicate Idle(l: Link) {
    && l.tx.idx == -1 && l.tx.fifo == [] && l.txTimer == None && l.pending == 0 && l.line && l.irq == None
    && l.rx.idx == -1 && l.rxTimer == None
    && l.rx.errsStart == l.rx.errsStop == l.rx.errsParity == 0
    && l.written == l.accepted == []
  }

  predicate Quiescent(l: Link) {
    l.txTimer == None && l.rxTimer == None && l.irq == None && l.pending == 0
  }

  /** What a user of the link relies on: bytes come out as they went in, none invented,
      no error counted, and nothing missing once the link is quiet. */
  predicate Correct(l: Link) {
    && l.accepted <= l.written
    && l.rx.errsStart == l.rx.errsStop == l.rx.errsParity == 0
    && (Quiescent(l) ==> l.accepted == l.written)
  }

  ghost predicate Faithful(p: Params) {
    forall l, es :: Idle(l) && Admissible(p, l, es) ==> Correct(Final(p, l, es))
  }

  /** The skew and latency bound.  With every callback as late as allowed, the stop
      sample still falls behind the stop edge, the parity sample before it, and the
      start sample before the first data bit. */
  predicate Bound(p: Params) {
    && 20.0 * p.pt + 2.0 * p.late < 21.0 * p.pr
    && 19.0 * p.pr + 6.0 * p.late < 20.0 * p.pt
    && p.pr + 6.0 * p.late < 2.0 * p.pt
  }
}
