/** The SPI slave driver's receive path over its real memory: one integer array that
    holds slot numbers and flags, one word array that holds all packet slots. */
module SpiDriver {
  import opened SpiPacketizer
  import opened SpiRing
  import opened SpiSystem
  import opened SpiBytes

  class SpiImx {
    var head: nat
    var tail: nat
    var buf: array<int>        // N slot numbers, then N flags
    var packets: array<word>   // N slots of 47 words
    var pktOk: nat
    var pktLost: nat
    var dwords: nat
    var skip: nat
    var maxUsed: nat

    ghost predicate Valid()
      reads this
    {
      head < N && tail < N && buf.Length == 2 * N && packets.Length == N * PACKET_WORDS
    }

    ghost function RingView(): Ring
      requires Valid()
      reads this, buf
    {
      Ring(head, tail, buf[..N], buf[N..])
    }

    ghost function Slot(i: nat): (ws: seq<word>)
      requires Valid() && i < N
      reads this, packets
      ensures |ws| == PACKET_WORDS
    {
      packets[i * PACKET_WORDS..(i + 1) * PACKET_WORDS]
    }

    ghost function StatsView(): Stats
      reads this
    {
      Stats(pktOk, pktLost, dwords, skip, maxUsed)
    }

    constructor ()
      ensures Valid() && RingView() == Cleared() && StatsView() == NO_STATS && fresh(buf) && fresh(packets)
    {
      head, tail := 0, 0;
      buf := new int[2 * N](_ => 0);
      packets := new word[N * PACKET_WORDS](_ => 0);
      pktOk, pktLost, dwords, skip, maxUsed := 0, 0, 0, 0, 0;
    }

    method RemoveTail()
      requires Valid() && 0 <= buf[tail] < N
      modifies this`tail, buf
      ensures Valid() && RingView() == Remove(old(RingView()))
    {
      buf[buf[tail] + N] := 0;
      buf[tail] := -1;
      tail := (tail + 1) % N;
    }

    method InsertHead(slot: int)
      requires Valid() && 0 <= slot < N
      modifies this`head, buf
      ensures Valid() && RingView() == Insert(old(RingView()), slot)
    {
      buf[head] := slot;
      buf[buf[head] + N] := 1;
      head := (head + 1) % N;
    }

    method ClearRing()
      requires Valid()
      modifies this`head, this`tail, buf
      ensures Valid() && RingView() == Cleared()
    {
      head, tail := 0, 0;
      for i := 0 to 2 * N
        invariant Valid() && head == tail == 0
        invariant forall j :: 0 <= j < i ==> buf[j] == 0
      {
        buf[i] := 0;
      }
    }

    /** rxring_get_free_idx: the first slot whose flag is down. */
    method GetFreeIdx() returns (idx: int)
      requires Valid()
      ensures |RingView().flag| == N && idx == FreeFrom(RingView().flag, 0)
    {
      ghost var flag := RingView().flag;
      idx := -1;
      var i := 0;
      while i < N && buf[i + N] != 0
        invariant 0 <= i <= N == |flag|
        invariant FreeFrom(flag, 0) == FreeFrom(flag, i)
      {
        i := i + 1;
      }
      if i < N {
        idx := i;
      }
    }

    /** The first locked section of receive_packet. */
    method ChooseLocked() returns (idx: int)
      requires Valid() && Consistent(RingView())
      modifies this`tail, this`pktLost, buf
      ensures Valid() && Consistent(RingView()) && 0 <= idx < N
      ensures idx !in Window(RingView()) && Used(RingView()) <= N - 2
      ensures if old(Vacant(RingView())) == 0
              then 0 <= old(buf[tail]) < N && RingView() == Remove(old(RingView())) && pktLost == old(pktLost) + 1
              else RingView() == old(RingView()) && pktLost == old(pktLost)
      ensures idx == FreeFrom(RingView().flag, 0)
    {
      RoomFor(RingView());
      hide Consistent, Window, Used, FreeFrom, Remove;
      if (tail - (head + 1)) % N == 0 {
        pktLost := pktLost + 1;
        RemoveTail();
      }
      FreeSlotExists(RingView());
      idx := GetFreeIdx();
    }

    /** One word through the packetizer, into the slot. */
    method Packetize(val: word, slot: nat, cnt: nat) returns (rv: int, cnt': nat)
      requires Valid() && slot < N && cnt < PACKET_WORDS
      modifies packets
      ensures Packed(Slot(slot), cnt', rv) == Paketizer(val, old(Slot(slot)), cnt)
      ensures forall i: nat :: i < N && i != slot ==> Slot(i) == old(Slot(i))
    {
      cnt' := cnt;
      rv := 0;
      packets[slot * PACKET_WORDS + cnt'] := val;
      cnt' := cnt' + 1;
      if cnt' == 1 {
        if (val >> 24) & 0xFF != 0x47 {
          cnt' := 0;
          rv := -3;
        }
      } else if cnt' == PACKET_WORDS {
        rv := 1;
        cnt' := 0;
      }
      assert Slot(slot) == old(Slot(slot))[cnt := val];
    }

    /** One pass of the inner loop in the packetizer's terms: the word into the slot, and
        the counters by its return code. */
    method CountWord(w: word, slot: nat, cnt: nat) returns (rv: int, cnt': nat)
      requires Valid() && slot < N && cnt < PACKET_WORDS
      modifies packets, this`dwords, this`pktOk, this`skip
      ensures Valid() && Packed(Slot(slot), cnt', rv) == Paketizer(w, old(Slot(slot)), cnt)
      ensures forall i: nat :: i < N && i != slot ==> Slot(i) == old(Slot(i))
      ensures dwords == old(dwords) + 1
      ensures pktOk == old(pktOk) + (if rv > 0 then 1 else 0)
      ensures skip == old(skip) + (if rv == -3 then 1 else 0)
    {
      hide Paketizer;
      rv, cnt' := Packetize(w, slot, cnt);
      dwords := dwords + 1;
      if rv > 0 {
        pktOk := pktOk + 1;
      } else if rv == -3 {
        skip := skip + 1;
      }
    }

    /** The same pass in the terms of the stream split. */
    method TakeWord(w: word, slot: nat, cnt: nat, ghost s: Split) returns (rv: int, cnt': nat)
      requires Valid() && slot < N && cnt < PACKET_WORDS
      requires ValidSplit(s) && |s.partial| == cnt && Slot(slot)[..cnt] == s.partial
      modifies packets, this`dwords, this`pktOk, this`skip
      ensures Valid() && forall i: nat :: i < N && i != slot ==> Slot(i) == old(Slot(i))
      ensures dwords == old(dwords) + 1
      ensures var t := Feed(s, w);
              && ValidSplit(t) && cnt' == |t.partial| && cnt' < PACKET_WORDS && Slot(slot)[..cnt'] == t.partial
              && PacketsOf(t.segments) == PacketsOf(s.segments) + (if rv > 0 then [Slot(slot)] else [])
              && pktOk == old(pktOk) + (if rv > 0 then 1 else 0)
              && skip == old(skip) + SkipsOf(t.segments) - SkipsOf(s.segments)
    {
      WordTaken(s, Slot(slot), w);
      hide Feed, Paketizer, PacketsOf, SkipsOf, ValidSplit;
      rv, cnt' := CountWord(w, slot, cnt);
    }

    /** The inner loop of receive_packet over the words waiting in the hardware FIFO:
        it stops behind a finished packet or when the FIFO is empty. */
    method DrainFifo(avail: seq<word>, slot: nat, cnt: nat, ghost before: Split)
      returns (rv: int, cnt': nat, taken: nat)
      requires Valid() && slot < N && cnt < PACKET_WORDS
      requires ValidSplit(before) && |before.partial| == cnt && Slot(slot)[..cnt] == before.partial
      modifies packets, this`dwords, this`pktOk, this`skip
      ensures Valid() && taken <= |avail| && (rv <= 0 ==> taken == |avail|)
      ensures forall i: nat :: i < N && i != slot ==> Slot(i) == old(Slot(i))
      ensures dwords == old(dwords) + taken
      ensures var after := FeedAll(before, avail[..taken]);
              && ValidSplit(after) && cnt' == |after.partial| && cnt' < PACKET_WORDS
              && Slot(slot)[..cnt'] == after.partial
              && PacketsOf(after.segments) == PacketsOf(before.segments) + (if rv > 0 then [Slot(slot)] else [])
              && pktOk == old(pktOk) + (if rv > 0 then 1 else 0)
              && skip == old(skip) + SkipsOf(after.segments) - SkipsOf(before.segments)
    {
      hide Feed, PacketsOf, SkipsOf, ValidSplit;
      rv, cnt', taken := 0, cnt, 0;
      ghost var s := before;
      assert PacketsOf(before.segments) + [] == PacketsOf(before.segments);
      while taken < |avail| && rv <= 0
        invariant Valid() && taken <= |avail| && cnt' < PACKET_WORDS
        invariant forall i: nat :: i < N && i != slot ==> Slot(i) == old(Slot(i))
        invariant dwords == old(dwords) + taken && pktOk == old(pktOk) + if rv > 0 then 1 else 0
        invariant s == FeedAll(before, avail[..taken]) && ValidSplit(s)
        invariant cnt' == |s.partial| && Slot(slot)[..cnt'] == s.partial
        invariant PacketsOf(s.segments) == PacketsOf(before.segments) + if rv > 0 then [Slot(slot)] else []
        invariant skip == old(skip) + SkipsOf(s.segments) - SkipsOf(before.segments)
      {
        ghost var w, t := avail[taken], Feed(s, avail[taken]);
        assert avail[..taken + 1][..taken] == avail[..taken];
        assert PacketsOf(s.segments) == PacketsOf(before.segments);
        rv, cnt' := TakeWord(avail[taken], slot, cnt', s);
        s := t;
        taken := taken + 1;
      }
    }

    /** The second locked section of receive_packet. */
    method PublishLocked(slot: int)
      requires Valid() && Consistent(RingView()) && 0 <= slot < N && slot !in Window(RingView())
      requires Used(RingView()) <= N - 2
      modifies this`head, this`maxUsed, buf
      ensures Valid() && Consistent(RingView())
      ensures RingView() == Insert(old(RingView()), slot) && Window(RingView()) == old(Window(RingView())) + [slot]
      ensures maxUsed == if Used(RingView()) > old(maxUsed) then Used(RingView()) else old(maxUsed)
    {
      InsertWindow(RingView(), slot);
      InsertHead(slot);
      var used := (head - tail) % N;
      if used > maxUsed {
        maxUsed := used;
      }
    }

    /** memcpy_bswap_packet: 47 words copied with their bytes reversed. */
    method MemcpyBswapPacket(dst: array<word>, src: nat)
      requires Valid() && dst != packets && dst.Length == PACKET_WORDS && src < N
      modifies dst
      ensures dst[..] == SwapPacket(Slot(src)) && LowFirst(dst[..]) == HighFirst(Slot(src))
    {
      for i := 0 to PACKET_WORDS
        invariant forall j :: 0 <= j < i ==> dst[j] == Swab32(Slot(src)[j])
      {
        dst[i] := Swab32(packets[src * PACKET_WORDS + i]);
      }
      assert dst[..] == SwapPacket(Slot(src));
      SwappedReadsInOrder(Slot(src));
    }

    /** The locked section of spi_imx_transfer once a packet is ready. */
    method TransferLocked(dst: array<word>) returns (idx: int)
      requires Valid() && Consistent(RingView()) && Used(RingView()) > 0
      requires dst != packets && dst.Length == PACKET_WORDS
      modifies dst, this`tail, buf
      ensures Valid() && Consistent(RingView()) && idx == old(Window(RingView()))[0] && 0 <= idx < N
      ensures idx == old(buf[tail]) && RingView() == Remove(old(RingView()))
      ensures Window(RingView()) == old(Window(RingView()))[1..]
      ensures dst[..] == SwapPacket(old(Slot(Window(RingView())[0])))
      ensures LowFirst(dst[..]) == HighFirst(old(Slot(Window(RingView())[0])))
    {
      TailEntry(RingView());
      RemoveWindow(RingView());
      idx := buf[tail];
      MemcpyBswapPacket(dst, idx);
      RemoveTail();
    }

    // -------- the sections are the steps of the system --------

    /** The object's memory is the memory of the system state s. */
    ghost predicate Shows(s: Sys)
      reads this, buf, packets
    {
      && Valid() && RingView() == s.ring && StatsView() == s.stats && |s.slots| == N
      && forall i: nat :: i < N ==> Slot(i) == s.slots[i]
    }

    method ChooseStep(ghost s: Sys) returns (idx: int)
      requires Shows(s) && Inv(s) && s.prod.Ready?
      modifies this`tail, this`pktLost, buf
      ensures Shows(Step(s, Choose)) && Step(s, Choose).prod == Chosen(idx)
    {
      ChosenMemory(s);
      hide Inv, Step, FreeFrom, Window, Consistent;
      idx := ChooseLocked();
    }

    method ReceiveStep(w: word, slot: nat, cnt: nat, ghost s: Sys) returns (rv: int, cnt': nat)
      requires Shows(s) && Inv(s) && s.prod == Filling(slot, cnt)
      modifies packets, this`dwords, this`pktOk, this`skip
      ensures Shows(Step(s, Receive(w)))
      ensures Step(s, Receive(w)).prod == if rv > 0 then Full(slot) else Filling(slot, cnt')
    {
      hide Paketizer;
      rv, cnt' := CountWord(w, slot, cnt);
    }

    method PublishStep(slot: int, ghost s: Sys)
      requires Shows(s) && Inv(s) && (s.prod == Full(slot) || s.prod == Partial(slot))
      modifies this`head, this`maxUsed, buf
      ensures Shows(Step(s, Publish))
    {
      PublishLocked(slot);
    }

    method TransferStep(dst: array<word>, ghost s: Sys) returns (idx: int)
      requires Shows(s) && Inv(s) && Used(s.ring) > 0 && dst != packets && dst.Length == PACKET_WORDS
      modifies dst, this`tail, buf
      ensures Shows(Step(s, Transfer)) && Step(s, Transfer).delivered == s.delivered + [dst[..]]
    {
      idx := TransferLocked(dst);
    }

    method ClearStep(ghost s: Sys)
      requires Shows(s) && Inv(s)
      modifies this`head, this`tail, buf
      ensures Shows(Step(s, SpiSystem.ClearRing))
    {
      ClearRing();
    }
  }

  /** A full ring has an oldest entry, without which there is room; another has room. */
  lemma RoomFor(r: Ring)
    requires Consistent(r)
    ensures r.idx != [] && r.tail < |r.idx|
    ensures Vacant(r) == 0 ==> 0 <= r.idx[r.tail] < N && Consistent(Remove(r)) && Used(Remove(r)) <= N - 2
    ensures Vacant(r) != 0 ==> Used(r) <= N - 2
  {
    CountAndSpace(r);
    if Vacant(r) == 0 {
      TailEntry(r);
      RemoveWindow(r);
      UsedAfterRemove(r);
    }
    hide Consistent, Window, Used, Remove;
  }

  /** What choosing a slot does to the memory. */
  lemma ChosenMemory(s: Sys)
    requires Inv(s) && s.prod.Ready?
    ensures Consistent(s.ring)
    ensures var e, lost := Step(s, Choose), Vacant(s.ring) == 0;
            && e.slots == s.slots && e.prod == Chosen(FreeFrom(e.ring.flag, 0))
            && (lost ==> 0 <= s.ring.idx[s.ring.tail] < N && e.ring == Remove(s.ring))
            && (!lost ==> e.ring == s.ring)
            && e.stats == s.stats.(pktLost := s.stats.pktLost + if lost then 1 else 0)
  {
    ChosenIs(s);
    RoomIsMade(s);
    hide Consistent, Window, Remove, FreeFrom, QueueIsInserted, HeldSlotFree, Packetized, WordsAccounted, WholePackets;
  }

  function FeedAll(s: Split, ws: seq<word>): Split {
    if ws == [] then s else Feed(FeedAll(s, ws[..|ws| - 1]), ws[|ws| - 1])
  }

  /** Everything one word does to the split, in terms of the packetizer's result. */
  lemma WordTaken(s: Split, packet: seq<word>, w: word)
    requires ValidSplit(s) && |packet| == PACKET_WORDS && packet[..|s.partial|] == s.partial
    ensures var r := Paketizer(w, packet, |s.partial|); var t := Feed(s, w);
            && ValidSplit(t) && r.cnt == |t.partial| && r.packet[..r.cnt] == t.partial
            && PacketsOf(t.segments) == PacketsOf(s.segments) + (if r.rv > 0 then [r.packet] else [])
            && SkipsOf(t.segments) == SkipsOf(s.segments) + (if r.rv == -3 then 1 else 0)
  {
    PaketizerFeeds(s, packet, w);
    FeedIsValid(s, w);
    PacketsAfterFeed(s, w);
    SkipsAfterFeed(s, w);
    hide PacketsOf, SkipsOf, ValidSplit;
  }

  lemma SkipsAfterFeed(s: Split, w: word)
    ensures var t := Feed(s, w);
            SkipsOf(t.segments) == SkipsOf(s.segments) +
              if t.segments == s.segments + [Skip(w)] then 1 else 0
  {
    var t := Feed(s, w);
    if t.segments != s.segments {
      assert t.segments[..|s.segments|] == s.segments;
    }
  }
}
