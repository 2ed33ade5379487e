/** One bit-banged UART: the transmit and receive halves as pure step functions,
    and the driver object whose callbacks carry them out in place. */
module BitbangDevice {
  import opened Basics
  import opened BitbangFrame

  const FIFO_SIZE: nat := 1024
  const INT_MAX: int := 0x7FFF_FFFF

  /** Transmit half: bit index, character being sent, queue, sent counter. */
  datatype Tx = Tx(idx: int, data: byte, parity: bool, fifo: seq<byte>, counter: int)

  /** What one transmit callback does: new state, level driven (if any), timer restarted or not. */
  datatype TxOut = TxOut(tx: Tx, drive: Option<bool>, restart: bool)

  /** Receive half: bit index, shift register, received parity, queue, statistics. */
  datatype Rx = Rx(idx: int, data: byte, parity: bool, fifo: seq<byte>,
                   counter: int, errsStart: int, errsStop: int, errsParity: int)

  /** What one receive callback does; `accepted` is the byte put into the queue. */
  datatype RxOut = RxOut(rx: Rx, restart: bool, accepted: Option<byte>)

  function TxCallback(tx: Tx): TxOut {
    if tx.idx > 10 || tx.idx < -1 then
      TxOut(tx.(idx := -1), None, false)
    else if tx.idx == -1 then
      if tx.fifo != [] then
        TxOut(tx.(idx := 0, data := tx.fifo[0], parity := ParityEven8(tx.fifo[0]), fifo := tx.fifo[1..]),
              Some(false), true)
      else
        TxOut(tx, None, false)
    else if tx.idx == 8 then
      TxOut(tx.(idx := 9), Some(tx.parity), true)
    else if tx.idx == 9 then
      TxOut(tx.(idx := 10), Some(true), true)
    else if tx.idx == 10 then
      TxOut(tx.(idx := -1, counter := tx.counter + 1), Some(true), true)
    else
      TxOut(tx.(idx := tx.idx + 1), Some(Bit(tx.data, tx.idx)), true)
  }

  /** kfifo_in of one byte after dropping the oldest when the queue is full. */
  function PushOverwriting(fifo: seq<byte>, d: byte): seq<byte> {
    (if |fifo| == FIFO_SIZE then fifo[1..] else fifo) + [d]
  }

  function RxCallback(rx: Rx, level: bool): RxOut {
    if rx.idx > 9 || rx.idx < -1 then
      RxOut(rx.(idx := -1), false, None)
    else if rx.idx == -1 then
      if level then RxOut(rx.(errsStart := rx.errsStart + 1), false, None)
      else RxOut(rx.(idx := 0), true, None)
    else if rx.idx == 8 then
      RxOut(rx.(parity := level, idx := 9), true, None)
    else if rx.idx == 9 then
      var chk := ParityEven8(rx.data);
      if level && chk == rx.parity then
        RxOut(rx.(fifo := PushOverwriting(rx.fifo, rx.data), counter := rx.counter + 1, idx := -1),
              false, Some(rx.data))
      else
        RxOut(rx.(errsParity := rx.errsParity + (if chk != rx.parity then 1 else 0),
                  errsStop := rx.errsStop + (if !level then 1 else 0), idx := -1), false, None)
    else
      RxOut(rx.(data := InsertBit(rx.data, level), idx := rx.idx + 1), true, None)
  }

  /** kfifo_from_user: as many leading bytes as there is room for. */
  function Copied(fifo: seq<byte>, count: nat): nat {
    var room := if |fifo| < FIFO_SIZE then FIFO_SIZE - |fifo| else 0;
    if count < room then count else room
  }

  /** The kernel's hrtimer_forward: the first expiry after `now` on the timer's grid. */
  function HrtimerForward(expiry: int, now: int, period: int): int
    requires period > 0
  {
    if now < expiry then expiry else expiry + ((now - expiry) / period + 1) * period
  }

  class BitbangUart {
    var txIdx: int
    var txParity: bool
    var txData: byte
    var rxIdx: int
    var rxParity: bool
    var rxData: byte
    var txFifo: seq<byte>
    var rxFifo: seq<byte>
    var txTimer: Option<int>   // next expiry, None when inactive
    var rxTimer: Option<int>
    var period: int            // nanoseconds
    var halfPeriod: int
    var txLevel: bool          // the TX pin
    var irqEnabled: bool
    var openCount: int
    var txCounter: int
    var rxCounter: int
    var rxErrsStart: int
    var rxErrsStop: int
    var rxErrsParity: int

    ghost function TxView(): Tx
      reads this
    {
      Tx(txIdx, txData, txParity, txFifo, txCounter)
    }

    ghost function RxView(): Rx
      reads this
    {
      Rx(rxIdx, rxData, rxParity, rxFifo, rxCounter, rxErrsStart, rxErrsStop, rxErrsParity)
    }

    ghost predicate InRange()
      reads this
    {
      && -1 <= txIdx <= 10 && -1 <= rxIdx <= 9
      && |txFifo| <= FIFO_SIZE && |rxFifo| <= FIFO_SIZE
      && period == 2 * halfPeriod >= 0
      && 0 <= openCount <= INT_MAX
    }

    /** With a bit period set, the timers can run. */
    ghost predicate Valid()
      reads this
    {
      InRange() && period > 0
    }

    /** A probed device: fields zeroed, the line driven high.  It has a bit period if and
        only if it was given a legal one; a value above 1000 at load leaves the period zero. */
    constructor (ms: nat)
      ensures InRange() && (Valid() <==> 1 <= ms <= 1000)
      ensures TxView() == Tx(0, 0, false, [], 0) && RxView() == Rx(0, 0, false, [], 0, 0, 0, 0)
      ensures period == if 1 <= ms <= 1000 then ms * 1_000_000 else 0
      ensures txTimer == rxTimer == None && txLevel && !irqEnabled && openCount == 0
    {
      txIdx, txParity, txData, rxIdx, rxParity, rxData := 0, false, 0, 0, false, 0;
      txFifo, rxFifo, txTimer, rxTimer := [], [], None, None;
      period, halfPeriod := 0, 0;
      txLevel, irqEnabled, openCount := true, false, 0;
      txCounter, rxCounter, rxErrsStart, rxErrsStop, rxErrsParity := 0, 0, 0, 0, 0;
      new;
      SetPeriod(ms);
    }

    /** Changes the bit period; an illegal value is ignored. Half a period is exact. */
    method SetPeriod(ms: nat)
      requires InRange()
      modifies this`period, this`halfPeriod
      ensures InRange() && (Valid() <==> 1 <= ms <= 1000 || old(Valid()))
      ensures period == (if 1 <= ms <= 1000 then ms * 1_000_000 else old(period))
    {
      if ms == 0 || ms > 1000 {
        return;
      }
      period := ms * 1_000_000;
      halfPeriod := period / 2;
      assert period == 2 * (ms * 500_000);
    }

    method Open()
      requires InRange()
      modifies this
      ensures InRange() && (Valid() <==> old(Valid()))
      ensures openCount == (if old(openCount) == INT_MAX then INT_MAX else old(openCount) + 1)
      ensures if old(openCount) == 0
              then TxView() == old(TxView()).(idx := -1) && RxView() == old(RxView()).(idx := -1, fifo := [])
                   && irqEnabled
              else TxView() == old(TxView()) && RxView() == old(RxView()) && irqEnabled == old(irqEnabled)
      ensures unchanged(`txTimer, `rxTimer, `period, `halfPeriod, `txLevel)
    {
      var before := openCount;
      if openCount != INT_MAX {
        openCount := openCount + 1;
      }
      if before == 0 {
        rxFifo := [];
        txIdx := -1;
        rxIdx := -1;
        irqEnabled := true;
      }
    }

    method Close()
      requires InRange() && openCount > 0
      modifies this`openCount, this`irqEnabled, this`rxFifo
      ensures InRange() && (Valid() <==> old(Valid()))
      ensures openCount == old(openCount) - 1
      ensures if openCount == 0 then rxFifo == [] && !irqEnabled
              else rxFifo == old(rxFifo) && irqEnabled == old(irqEnabled)
    {
      openCount := openCount - 1;
      if openCount == 0 {
        irqEnabled := false;
        rxFifo := [];
      }
    }

    /** The locked half of a write: queue what fits. */
    method TxCopy(from: seq<byte>) returns (copied: nat)
      requires InRange()
      modifies this`txFifo
      ensures InRange() && (Valid() <==> old(Valid()))
      ensures copied == Copied(old(txFifo), |from|) <= |from|
      ensures copied == |from| || |txFifo| == FIFO_SIZE
      ensures txFifo == old(txFifo) + from[..copied]
    {
      copied := Copied(txFifo, |from|);
      txFifo := txFifo + from[..copied];
    }

    /** The unlocked half of a write: start the bit timer unless it runs. */
    method TxKick(copied: nat, now: int)
      requires InRange()
      modifies this`txTimer
      ensures txTimer == if copied > 0 && old(txTimer) == None then Some(now + period) else old(txTimer)
    {
      if copied > 0 && txTimer == None {
        txTimer := Some(now + period);
      }
    }

    /** Read: the oldest bytes, at most `count`. */
    method ReadRx(count: nat) returns (to: seq<byte>)
      requires InRange()
      modifies this`rxFifo
      ensures InRange() && (Valid() <==> old(Valid()))
      ensures |to| == (if count < |old(rxFifo)| then count else |old(rxFifo)|)
      ensures old(rxFifo) == to + rxFifo
    {
      var n := if count < |rxFifo| then count else |rxFifo|;
      to := rxFifo[..n];
      rxFifo := rxFifo[n..];
    }

    method TxTimerCb(now: int) returns (restart: bool)
      requires Valid() && txTimer.Some? && txTimer.value <= now
      modifies this`txIdx, this`txData, this`txParity, this`txFifo, this`txCounter, this`txLevel, this`txTimer
      ensures Valid()
      ensures TxOut(TxView(), if old(TxCallback(TxView()).drive) == None then None else Some(txLevel), restart)
           == old(TxCallback(TxView()))
      ensures old(TxCallback(TxView()).drive) == None ==> txLevel == old(txLevel)
      ensures txTimer == if restart then Some(HrtimerForward(old(txTimer.value), now, period)) else None
    {
      restart := true;
      var idx := txIdx;
      if idx > 10 || idx < -1 {
        idx := -1;
        restart := false;
      } else if idx == -1 {
        if txFifo != [] {
          txData := txFifo[0];
          txFifo := txFifo[1..];
          txParity := ParityEven8(txData);
          txLevel := false;
          idx := idx + 1;
        } else {
          restart := false;
        }
      } else if idx == 8 {
        txLevel := txParity;
        idx := idx + 1;
      } else if idx == 9 {
        txLevel := true;
        idx := idx + 1;
      } else if idx == 10 {
        txLevel := true;
        idx := -1;
        txCounter := txCounter + 1;
      } else {
        txLevel := Bit(txData, idx);
        idx := idx + 1;
      }
      txIdx := idx;
      if restart {
        txTimer := Some(HrtimerForward(txTimer.value, now, period));
      } else {
        txTimer := None;
      }
    }

    /** Falling-edge interrupt; `level` is the RX pin when the handler reads it. */
    method RxIrqHandler(level: bool, now: int)
      requires InRange()
      modifies this`rxTimer
      ensures rxTimer == if !level && rxIdx == -1 then Some(now + halfPeriod) else old(rxTimer)
    {
      if level {
        return;
      }
      if rxIdx == -1 {
        rxTimer := Some(now + halfPeriod);
      }
    }

    /** The locked section of an accepted frame: drop the oldest byte of a full queue, then
        queue the new one. */
    method QueueRx()
      requires InRange()
      modifies this`rxFifo, this`rxCounter
      ensures InRange() && (Valid() <==> old(Valid()))
      ensures rxFifo == PushOverwriting(old(rxFifo), rxData) && rxCounter == old(rxCounter) + 1
    {
      if |rxFifo| == FIFO_SIZE {
        rxFifo := rxFifo[1..];
      }
      rxFifo := rxFifo + [rxData];
      rxCounter := rxCounter + 1;
    }

    /** The stop-bit case of the receive callback: accept or count the frame. */
    method StopBit(level: bool)
      requires InRange() && rxIdx == 9
      modifies this`rxFifo, this`rxCounter, this`rxErrsStop, this`rxErrsParity
      ensures InRange() && (Valid() <==> old(Valid()))
      ensures RxView().(idx := -1) == old(RxCallback(RxView(), level).rx)
    {
      hide ParityEven8, InsertBit, PushOverwriting;
      var chk := ParityEven8(rxData);
      if level && chk == rxParity {
        QueueRx();
      } else {
        if chk != rxParity {
          rxErrsParity := rxErrsParity + 1;
        }
        if !level {
          rxErrsStop := rxErrsStop + 1;
        }
      }
    }

    method RxTimerCb(level: bool, now: int) returns (restart: bool)
      requires Valid() && rxTimer.Some? && rxTimer.value <= now
      modifies this`rxIdx, this`rxData, this`rxParity, this`rxFifo, this`rxTimer
      modifies this`rxCounter, this`rxErrsStart, this`rxErrsStop, this`rxErrsParity
      ensures Valid()
      ensures RxView() == old(RxCallback(RxView(), level).rx) && restart == old(RxCallback(RxView(), level).restart)
      ensures rxTimer == if restart then Some(HrtimerForward(old(rxTimer.value), now, period)) else None
    {
      restart := true;
      var idx := rxIdx;
      if idx > 9 || idx < -1 {
        idx := -1;
        restart := false;
      } else if idx == -1 {
        if level {
          restart := false;
          rxErrsStart := rxErrsStart + 1;
        } else {
          idx := idx + 1;
        }
      } else if idx == 8 {
        rxParity := level;
        idx := idx + 1;
      } else if idx == 9 {
        StopBit(level);
        idx := -1;
        restart := false;
      } else {
        rxData := InsertBit(rxData, level);
        idx := idx + 1;
      }
      rxIdx := idx;
      if restart {
        rxTimer := Some(HrtimerForward(rxTimer.value, now, period));
      } else {
        rxTimer := None;
      }
    }
  }
}
