/** The receive ring of the SPI slave driver: a circular queue of slot numbers and a
    flag per slot, and what the queue macros do to the queued window. */
module SpiRing {
  import opened Basics

  const N: nat := 16384   // RX_RING_PACKETS

  datatype Ring = Ring(head: nat, tail: nat, idx: seq<int>, flag: seq<int>)

  predicate Shaped(r: Ring) {
    r.head < N && r.tail < N && |r.idx| == N && |r.flag| == N
  }

  /** CIRC_CNT and CIRC_SPACE; masking with N - 1 is the remainder modulo N. */
  function Used(r: Ring): nat { (r.head - r.tail) % N }
  function Vacant(r: Ring): nat { (r.tail - (r.head + 1)) % N }

  lemma MaskIsRemainder(x: bv32)
    ensures x & 16383 == x % 16384
  {
  }

  /** RXRING_REMOVE: free the slot at the tail. */
  function Remove(r: Ring): (e: Ring)
    requires Shaped(r) && 0 <= r.idx[r.tail] < N
    ensures Shaped(e)
  {
    Ring(r.head, (r.tail + 1) % N, r.idx[r.tail := -1], r.flag[r.idx[r.tail] := 0])
  }

  /** RXRING_INSERT: queue a slot at the head. */
  function Insert(r: Ring, slot: int): (e: Ring)
    requires Shaped(r) && 0 <= slot < N
    ensures Shaped(e)
  {
    Ring((r.head + 1) % N, r.tail, r.idx[r.head := slot], r.flag[slot := 1])
  }

  /** RXRING_CLEAR: both arrays zeroed. */
  function Cleared(): Ring {
    Ring(0, 0, seq(N, _ => 0), seq(N, _ => 0))
  }

  /** The first slot at or behind i whose flag is down, or -1. */
  function FreeFrom(flag: seq<int>, i: nat): int
    requires i <= |flag|
    decreases |flag| - i
  {
    if i == |flag| then -1 else if flag[i] == 0 then i else FreeFrom(flag, i + 1)
  }

  lemma {:induction false} FreeFromFinds(flag: seq<int>, i: nat)
    requires i <= |flag|
    ensures var f := FreeFrom(flag, i);
            && -1 <= f < |flag|
            && (f >= 0 ==> i <= f && flag[f] == 0 && forall j :: i <= j < f ==> flag[j] != 0)
            && (f == -1 <==> forall j :: i <= j < |flag| ==> flag[j] != 0)
    decreases |flag| - i
  {
    if i < |flag| && flag[i] != 0 {
      FreeFromFinds(flag, i + 1);
    }
  }

  // ======== the queued window ========

  /** The queued slot numbers, oldest first. */
  function Window(r: Ring): (q: seq<int>)
    requires Shaped(r)
    ensures |q| == Used(r) < N
  {
    seq(Used(r), k requires 0 <= k < Used(r) => r.idx[(r.tail + k) % N])
  }

  predicate Distinct(q: seq<int>) {
    forall i, j :: 0 <= i < j < |q| ==> q[i] != q[j]
  }

  /** Slot numbers are in range and pairwise distinct, and a flag is up exactly while
      its slot is queued. */
  predicate Consistent(r: Ring) {
    && Shaped(r)
    && (forall k :: 0 <= k < Used(r) ==> 0 <= Window(r)[k] < N)
    && Distinct(Window(r))
    && (forall i :: 0 <= i < N ==> r.flag[i] == if i in Window(r) then 1 else 0)
  }

  lemma CountAndSpace(r: Ring)
    requires Shaped(r)
    ensures Used(r) + Vacant(r) == N - 1
  {
    Wrapped(r.head - r.tail, N);
    Wrapped(r.tail - (r.head + 1), N);
  }

  lemma TailEntry(r: Ring)
    requires Consistent(r) && Used(r) > 0
    ensures r.idx[r.tail] == Window(r)[0] && 0 <= r.idx[r.tail] < N
  {
    Wrapped(r.tail + 0, N);
  }

  /** Advancing the tail: one entry fewer, and every other entry one place further on. */
  lemma TailMoves(head: nat, tail: nat, k: nat)
    requires head < N && tail < N && head != tail && k < N
    ensures ((tail + 1) % N + k) % N == (tail + (k + 1)) % N
    ensures (head - (tail + 1) % N) % N == (head - tail) % N - 1
    ensures 0 < k < (head - tail) % N ==> (tail + k) % N != tail
  {
    Wrapped(tail + 1, N);
    Wrapped((tail + 1) % N + k, N);
    Wrapped(tail + (k + 1), N);
    Wrapped(tail + k, N);
    Wrapped(head - tail, N);
    Wrapped(head - (tail + 1) % N, N);
  }

  lemma WindowAt(r: Ring, k: nat)
    requires Shaped(r) && k < Used(r)
    ensures |Window(r)| == Used(r) && Window(r)[k] == r.idx[(r.tail + k) % N]
  {
  }

  lemma UsedTells(r: Ring)
    requires Shaped(r)
    ensures Used(r) == (r.head - r.tail) % N && (Used(r) > 0 <==> r.head != r.tail) && |Window(r)| == Used(r)
  {
    Wrapped(r.head - r.tail, N);
  }

  lemma UsedAfterRemove(r: Ring)
    requires Shaped(r) && Used(r) > 0 && 0 <= r.idx[r.tail] < N
    ensures Used(Remove(r)) == Used(r) - 1 == |Window(Remove(r))| && |Window(r)| == Used(r)
  {
    UsedTells(r);
    UsedTells(Remove(r));
    TailMoves(r.head, r.tail, 0);
  }

  lemma EntryAfterRemove(r: Ring, k: nat)
    requires Shaped(r) && 0 < Used(r) && 0 <= r.idx[r.tail] < N && k + 1 < Used(r) && k < Used(Remove(r))
    ensures |Window(Remove(r))| == Used(Remove(r)) && |Window(r)| == Used(r)
    ensures Window(Remove(r))[k] == Window(r)[k + 1]
  {
    WindowAt(Remove(r), k);
    WindowAt(r, k + 1);
    IndexAfterRemove(r, k);
    hide Window, Used, Remove;
  }

  lemma IndexAfterRemove(r: Ring, k: nat)
    requires Shaped(r) && 0 < Used(r) && 0 <= r.idx[r.tail] < N && k + 1 < Used(r)
    ensures var e := Remove(r); e.idx[(e.tail + k) % N] == r.idx[(r.tail + (k + 1)) % N]
  {
    UsedTells(r);
    hide Window, Used;
    TailMoves(r.head, r.tail, k);
    TailMoves(r.head, r.tail, k + 1);
  }

  lemma WindowMoves(r: Ring)
    requires Shaped(r) && Used(r) > 0 && 0 <= r.idx[r.tail] < N
    ensures Used(Remove(r)) == Used(r) - 1 && Window(Remove(r)) == Window(r)[1..]
  {
    hide Window, Used, Remove;
    UsedAfterRemove(r);
    forall k | 0 <= k < Used(r) - 1
      ensures Window(Remove(r))[k] == Window(r)[k + 1]
    {
      EntryAfterRemove(r, k);
    }
  }

  lemma RemoveWindow(r: Ring)
    requires Consistent(r) && Used(r) > 0 && 0 <= r.idx[r.tail] < N
    ensures Window(Remove(r)) == Window(r)[1..] && Consistent(Remove(r))
  {
    WindowMoves(r);
    var q := Window(r);
    TailEntry(r);
    FlagsAfterRemove(q, r.flag);
    assert Used(Remove(r)) == |q[1..]|;
    hide Window;
  }

  lemma FlagsAfterRemove(q: seq<int>, flag: seq<int>)
    requires |flag| == N && q != [] && Distinct(q) && 0 <= q[0] < N
    requires forall i :: 0 <= i < N ==> flag[i] == if i in q then 1 else 0
    ensures Distinct(q[1..])
    ensures forall i :: 0 <= i < N ==> flag[q[0] := 0][i] == if i in q[1..] then 1 else 0
  {
    assert q == [q[0]] + q[1..];
  }

  /** Advancing the head: one entry more, at the old head, which no entry was at. */
  lemma HeadMoves(head: nat, tail: nat, k: nat)
    requires head < N && tail < N && (head - tail) % N <= N - 2 && k < N
    ensures ((head + 1) % N - tail) % N == (head - tail) % N + 1
    ensures (tail + k) % N == head <==> k == (head - tail) % N
  {
    Wrapped(head + 1, N);
    Wrapped(head - tail, N);
    Wrapped((head + 1) % N - tail, N);
    Wrapped(tail + k, N);
  }

  lemma UsedAfterInsert(r: Ring, slot: int)
    requires Shaped(r) && Used(r) <= N - 2 && 0 <= slot < N
    ensures Used(Insert(r, slot)) == Used(r) + 1 == |Window(Insert(r, slot))| && |Window(r)| == Used(r)
  {
    UsedTells(r);
    UsedTells(Insert(r, slot));
    HeadMoves(r.head, r.tail, 0);
  }

  lemma EntryAfterInsert(r: Ring, slot: int, k: nat)
    requires Shaped(r) && Used(r) <= N - 2 && 0 <= slot < N && k <= Used(r) && k < Used(Insert(r, slot))
    ensures |Window(Insert(r, slot))| == Used(Insert(r, slot)) && |Window(r)| == Used(r)
    ensures Window(Insert(r, slot))[k] == if k < Used(r) then Window(r)[k] else slot
  {
    UsedTells(r);
    HeadMoves(r.head, r.tail, k);
    WindowAt(Insert(r, slot), k);
    if k < Used(r) {
      WindowAt(r, k);
    }
    hide Window, Used;
  }

  lemma WindowGrows(r: Ring, slot: int)
    requires Shaped(r) && Used(r) <= N - 2 && 0 <= slot < N
    ensures Used(Insert(r, slot)) == Used(r) + 1 && Window(Insert(r, slot)) == Window(r) + [slot]
  {
    hide Window, Used, Insert;
    UsedAfterInsert(r, slot);
    forall k | 0 <= k <= Used(r)
      ensures Window(Insert(r, slot))[k] == (Window(r) + [slot])[k]
    {
      EntryAfterInsert(r, slot, k);
    }
  }

  lemma InsertWindow(r: Ring, slot: int)
    requires Consistent(r) && Used(r) <= N - 2 && 0 <= slot < N && slot !in Window(r)
    ensures Window(Insert(r, slot)) == Window(r) + [slot] && Consistent(Insert(r, slot))
  {
    WindowGrows(r, slot);
    var q := Window(r);
    assert Used(Insert(r, slot)) == |q + [slot]|;
    hide Window;
  }

  lemma ClearedWindow()
    ensures Consistent(Cleared()) && Window(Cleared()) == []
  {
  }

  // ======== a free slot exists ========

  function Below(n: nat): set<int> {
    if n == 0 then {} else Below(n - 1) + {n - 1}
  }

  lemma {:induction false} BelowSize(n: nat)
    ensures |Below(n)| == n && forall i :: i in Below(n) <==> 0 <= i < n
  {
    if n > 0 {
      BelowSize(n - 1);
    }
  }

  lemma {:induction false} ElementsSize(q: seq<int>)
    ensures |set x | x in q| <= |q|
  {
    if q != [] {
      ElementsSize(q[1..]);
      assert (set x | x in q) == (set x | x in q[1..]) + {q[0]};
    } else {
      assert (set x | x in q) == {};
    }
  }

  lemma {:induction false} SubsetSize<T>(a: set<T>, b: set<T>)
    requires a <= b
    ensures |a| <= |b|
  {
    if |a| > 0 {
      var x :| x in a;
      assert a - {x} <= b - {x};
      SubsetSize(a - {x}, b - {x});
    }
  }

  /** While not every position is used, the allocator finds a slot, and one that is not
      queued. */
  lemma FreeSlotExists(r: Ring)
    requires Consistent(r)
    ensures var f := FreeFrom(r.flag, 0); 0 <= f < N && f !in Window(r)
  {
    FreeFromFinds(r.flag, 0);
    var q := Window(r);
    hide Window, FreeFrom, Used;
    if FreeFrom(r.flag, 0) == -1 {
      forall i | 0 <= i < N
        ensures i in q
      {
        assert r.flag[i] != 0;
      }
      CoversAll(q);
      assert false;
    }
  }

  /** Naming every slot takes N entries. */
  lemma CoversAll(q: seq<int>)
    requires forall i :: 0 <= i < N ==> i in q
    ensures |q| >= N
  {
    BelowSize(N);
    ElementsSize(q);
    var all := Below(N);
    hide Below;
    assert forall i :: i in all ==> i in q;
    SubsetSize(all, set x | x in q);
  }
}
