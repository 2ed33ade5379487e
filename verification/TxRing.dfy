/** The GPIO UART's transmit ring: head and tail over a fixed buffer, one cell kept free. */
module TxRing {
  import opened Basics

  const TX_BUF_SIZE: nat := 512

  /** The queued bytes, oldest first. */
  function Queue(buf: seq<bv8>, head: nat, tail: nat): (q: seq<bv8>)
    requires |buf| == TX_BUF_SIZE && head < TX_BUF_SIZE && tail < TX_BUF_SIZE
    ensures |q| == (head - tail) % TX_BUF_SIZE < TX_BUF_SIZE
  {
    seq((head - tail) % TX_BUF_SIZE, k requires 0 <= k < (head - tail) % TX_BUF_SIZE => buf[(tail + k) % TX_BUF_SIZE])
  }

  lemma QueuePut(buf: seq<bv8>, head: nat, tail: nat, b: bv8)
    requires |buf| == TX_BUF_SIZE && head < TX_BUF_SIZE && tail < TX_BUF_SIZE && (head + 1) % TX_BUF_SIZE != tail
    ensures Queue(buf[head := b], (head + 1) % TX_BUF_SIZE, tail) == Queue(buf, head, tail) + [b]
  {
    var n := (head - tail) % TX_BUF_SIZE;
    PutIndices(head, tail);
    forall k | 0 <= k < n
      ensures (Queue(buf, head, tail) + [b])[k] == buf[head := b][(tail + k) % TX_BUF_SIZE]
    {
      PutMissesQueue(head, tail, k);
    }
  }

  lemma PutIndices(head: nat, tail: nat)
    requires head < TX_BUF_SIZE && tail < TX_BUF_SIZE && (head + 1) % TX_BUF_SIZE != tail
    ensures ((head + 1) % TX_BUF_SIZE - tail) % TX_BUF_SIZE == (head - tail) % TX_BUF_SIZE + 1
    ensures (tail + (head - tail) % TX_BUF_SIZE) % TX_BUF_SIZE == head
  {
    Wrapped(head + 1, TX_BUF_SIZE);
    Wrapped(head - tail, TX_BUF_SIZE);
    Wrapped((head + 1) % TX_BUF_SIZE - tail, TX_BUF_SIZE);
    Wrapped(tail + (head - tail) % TX_BUF_SIZE, TX_BUF_SIZE);
  }

  lemma PutMissesQueue(head: nat, tail: nat, k: nat)
    requires head < TX_BUF_SIZE && tail < TX_BUF_SIZE && k < (head - tail) % TX_BUF_SIZE
    ensures (tail + k) % TX_BUF_SIZE != head
  {
    Wrapped(head - tail, TX_BUF_SIZE);
    Wrapped(tail + k, TX_BUF_SIZE);
  }

  lemma GetIndices(head: nat, tail: nat, k: nat)
    requires head < TX_BUF_SIZE && tail < TX_BUF_SIZE && head != tail && 0 < k < TX_BUF_SIZE
    ensures (head - (tail + 1) % TX_BUF_SIZE) % TX_BUF_SIZE == (head - tail) % TX_BUF_SIZE - 1
    ensures ((tail + 1) % TX_BUF_SIZE + (k - 1)) % TX_BUF_SIZE == (tail + k) % TX_BUF_SIZE
  {
    Wrapped(tail + 1, TX_BUF_SIZE);
    Wrapped(head - tail, TX_BUF_SIZE);
    Wrapped(head - (tail + 1) % TX_BUF_SIZE, TX_BUF_SIZE);
    Wrapped((tail + 1) % TX_BUF_SIZE + (k - 1), TX_BUF_SIZE);
    Wrapped(tail + k, TX_BUF_SIZE);
  }

  lemma QueueGet(buf: seq<bv8>, head: nat, tail: nat)
    requires |buf| == TX_BUF_SIZE && head < TX_BUF_SIZE && tail < TX_BUF_SIZE && head != tail
    ensures Queue(buf, head, tail) == [buf[tail]] + Queue(buf, head, (tail + 1) % TX_BUF_SIZE)
  {
    GetIndices(head, tail, 1);
    var q, r := Queue(buf, head, tail), Queue(buf, head, (tail + 1) % TX_BUF_SIZE);
    assert q[0] == buf[tail] by { Wrapped(tail + 0, TX_BUF_SIZE); }
    forall k | 0 < k < |q|
      ensures q[k] == r[k - 1]
    {
      GetIndices(head, tail, k);
    }
    hide Queue;
  }

  // ======== whole runs ========

  datatype Cells = Cells(buf: seq<bv8>, head: nat, tail: nat)

  predicate Sound(c: Cells) {
    |c.buf| == TX_BUF_SIZE && c.head < TX_BUF_SIZE && c.tail < TX_BUF_SIZE
  }

  predicate Full(c: Cells) {
    (c.head + 1) % TX_BUF_SIZE == c.tail
  }

  function PutCells(c: Cells, b: bv8): (e: Cells)
    requires Sound(c)
    ensures Sound(e)
  {
    if Full(c) then c else Cells(c.buf[c.head := b], (c.head + 1) % TX_BUF_SIZE, c.tail)
  }

  function GetCells(c: Cells): (e: Cells)
    requires Sound(c)
    ensures Sound(e)
  {
    if c.head == c.tail then c else c.(tail := (c.tail + 1) % TX_BUF_SIZE)
  }

  datatype Op = PutOp(b: bv8) | GetOp

  /** The cells with the bytes accepted and the bytes handed out so far. */
  datatype Log = Log(cells: Cells, accepted: seq<bv8>, handed: seq<bv8>)

  function Step(l: Log, o: Op): (e: Log)
    requires Sound(l.cells)
    ensures Sound(e.cells)
  {
    match o
    case PutOp(b) => Log(PutCells(l.cells, b), if Full(l.cells) then l.accepted else l.accepted + [b], l.handed)
    case GetOp =>
      var none := l.cells.head == l.cells.tail;
      Log(GetCells(l.cells), l.accepted, if none then l.handed else l.handed + [l.cells.buf[l.cells.tail]])
  }

  function Run(c: Cells, ops: seq<Op>): (l: Log)
    requires Sound(c)
    ensures Sound(l.cells)
  {
    if ops == [] then Log(c, [], []) else Step(Run(c, ops[..|ops| - 1]), ops[|ops| - 1])
  }

  function Held(c: Cells): seq<bv8>
    requires Sound(c)
  {
    Queue(c.buf, c.head, c.tail)
  }

  lemma FullAt511(c: Cells)
    requires Sound(c)
    ensures Full(c) <==> |Held(c)| == TX_BUF_SIZE - 1
    ensures c.head == c.tail <==> Held(c) == []
  {
  }

  /** First in, first out, nothing lost: from an empty ring, what was handed out, then what
      the cells hold, is what was accepted, and at most 511 bytes are ever held. */
  lemma {:induction false} FirstInFirstOut(c: Cells, ops: seq<Op>)
    requires Sound(c) && c.head == c.tail
    ensures var l := Run(c, ops); l.accepted == l.handed + Held(l.cells) && |Held(l.cells)| <= TX_BUF_SIZE - 1
  {
    if ops != [] {
      FirstInFirstOut(c, ops[..|ops| - 1]);
      StepKeepsOrder(Run(c, ops[..|ops| - 1]), ops[|ops| - 1]);
      hide Held, Step;
    }
  }

  lemma StepKeepsOrder(l: Log, o: Op)
    requires Sound(l.cells) && l.accepted == l.handed + Held(l.cells)
    ensures var e := Step(l, o); e.accepted == e.handed + Held(e.cells)
  {
    var c := l.cells;
    hide Queue;
    match o
    case PutOp(b) =>
      if !Full(c) {
        QueuePut(c.buf, c.head, c.tail, b);
        assert l.handed + (Held(c) + [b]) == (l.handed + Held(c)) + [b];
      }
    case GetOp =>
      if c.head != c.tail {
        QueueGet(c.buf, c.head, c.tail);
        var e := GetCells(c);
        assert l.handed + ([c.buf[c.tail]] + Held(e)) == (l.handed + [c.buf[c.tail]]) + Held(e);
      }
  }

  class Ring {
    var buf: array<bv8>
    var head: nat
    var tail: nat

    ghost predicate Valid()
      reads this
    {
      buf.Length == TX_BUF_SIZE && head < TX_BUF_SIZE && tail < TX_BUF_SIZE
    }

    ghost function View(): (c: Cells)
      requires Valid()
      reads this, buf
      ensures Sound(c)
    {
      Cells(buf[..], head, tail)
    }

    ghost function Contents(): (q: seq<bv8>)
      requires Valid()
      reads this, buf
    {
      Held(View())
    }

    constructor ()
      ensures Valid() && Contents() == [] && fresh(buf)
    {
      buf := new bv8[TX_BUF_SIZE](_ => 0);
      head, tail := 0, 0;
    }

    /** Refused exactly when 511 bytes are queued. */
    method Put(b: bv8) returns (ok: bool)
      requires Valid()
      modifies this`head, buf
      ensures Valid() && View() == PutCells(old(View()), b) && (ok <==> !old(Full(View())))
      ensures ok <==> |old(Contents())| < TX_BUF_SIZE - 1
      ensures Contents() == if ok then old(Contents()) + [b] else old(Contents())
    {
      FullAt511(View());
      hide Queue;
      var next := (head + 1) % TX_BUF_SIZE;
      if next == tail {
        return false;
      }
      QueuePut(buf[..], head, tail, b);
      ghost var after := buf[..][head := b];
      buf[head] := b;
      assert buf[..] == after;
      head := next;
      return true;
    }

    method Get() returns (ok: bool, b: bv8)
      requires Valid()
      modifies this`tail
      ensures Valid() && View() == GetCells(old(View())) && (ok <==> old(head) != old(tail))
      ensures ok <==> old(Contents()) != []
      ensures if ok then old(Contents()) == [b] + Contents() else Contents() == old(Contents())
    {
      FullAt511(View());
      hide Queue;
      b := 0;
      if head == tail {
        return false, b;
      }
      QueueGet(buf[..], head, tail);
      b := buf[tail];
      tail := (tail + 1) % TX_BUF_SIZE;
      return true, b;
    }

    method Count() returns (count: nat)
      requires Valid()
      ensures count == |Contents()|
    {
      count := (head + TX_BUF_SIZE - tail) % TX_BUF_SIZE;
    }
  }
}
