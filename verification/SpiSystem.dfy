/** All interleavings of the SPI slave driver's receive path.  A step is a section the
    driver runs under its lock, one word taken from the hardware, or a reset.  The
    receive thread holds no lock between choosing a slot and queueing it. */
module SpiSystem {
  import opened SpiPacketizer
  import opened SpiRing

  const MAX_LOST: nat := 1024

  datatype Stats = Stats(pktOk: nat, pktLost: nat, dwords: nat, skip: nat, maxUsed: nat)

  const NO_STATS := Stats(0, 0, 0, 0, 0)

  /** The receive thread: absent, between packets, holding a chosen slot, filling it,
      or about to queue it complete or (when asked to stop) unfinished. */
  datatype Producer =
    Off | Ready | Chosen(slot: int) | Filling(slot: int, cnt: nat) | Full(slot: int) | Partial(slot: int)

  /** What became of a queued packet that is no longer in the ring. */
  datatype Fate = Delivered | Dropped | Wiped

  /** The driver's memory, then the history: packets ever queued with the fate of those
      that left, packets handed to readers, the words this thread has read, how many
      packets were queued before it started, the words of an unfinished packet at the
      last statistics reset, whether an error path was taken or a stop requested. */
  datatype Sys = Sys(ring: Ring, slots: seq<seq<word>>, prod: Producer, stats: Stats,
                     inserted: seq<seq<word>>, fates: seq<Fate>, delivered: seq<seq<word>>,
                     stream: seq<word>, base: nat, carried: nat, fault: bool, stopped: bool)

  datatype Action = ThreadStart | Choose | Begin | Receive(w: word) | Stop | Publish | Transfer | ResetStats | ClearRing

  function Swab32(w: word): word {
    (w << 24) | ((w << 8) & 0x00FF_0000) | ((w >> 8) & 0x0000_FF00) | (w >> 24)
  }

  function SwapPacket(ws: seq<word>): seq<word> {
    seq(|ws|, i requires 0 <= i < |ws| => Swab32(ws[i]))
  }

  lemma SwapTwice(ws: seq<word>)
    ensures SwapPacket(SwapPacket(ws)) == ws
  {
    forall i | 0 <= i < |ws|
      ensures Swab32(Swab32(ws[i])) == ws[i]
    {
      var w := ws[i];
      assert Swab32(Swab32(w)) == w;
    }
  }

  predicate WellFormed(s: Sys) {
    && Shaped(s.ring) && |s.slots| == N && (forall i :: 0 <= i < N ==> |s.slots[i]| == PACKET_WORDS)
    && match s.prod
       case Off => true
       case Ready => true
       case Chosen(slot) => 0 <= slot < N
       case Filling(slot, cnt) => 0 <= slot < N && cnt < PACKET_WORDS
       case Full(slot) => 0 <= slot < N
       case Partial(slot) => 0 <= slot < N
  }

  /** First locked section of receive_packet: make room by dropping the oldest packet,
      then choose a slot whose flag is down. */
  function ChooseSlot(s: Sys): Sys
    requires WellFormed(s)
  {
    if Vacant(s.ring) == 0 && !(0 <= s.ring.idx[s.ring.tail] < N) then s.(fault := true)
    else
      var s1 := if Vacant(s.ring) == 0
                then s.(ring := Remove(s.ring), stats := s.stats.(pktLost := s.stats.pktLost + 1),
                        fates := s.fates + [Dropped])
                else s;
      var slot := FreeFrom(s1.ring.flag, 0);
      if 0 <= slot < N then s1.(prod := Chosen(slot)) else s1.(fault := true, prod := Off)
  }

  function ReceiveWord(s: Sys, w: word): Sys
    requires WellFormed(s) && s.prod.Filling?
  {
    var r := Paketizer(w, s.slots[s.prod.slot], s.prod.cnt);
    var ok := if r.rv > 0 then 1 else 0;
    var skip := if r.rv == -3 then 1 else 0;
    s.(slots := s.slots[s.prod.slot := r.packet], stream := s.stream + [w],
       stats := s.stats.(dwords := s.stats.dwords + 1, pktOk := s.stats.pktOk + ok, skip := s.stats.skip + skip),
       prod := if r.rv > 0 then Full(s.prod.slot) else Filling(s.prod.slot, r.cnt))
  }

  /** Second locked section: queue the slot. */
  function PublishSlot(s: Sys): Sys
    requires WellFormed(s) && (s.prod.Full? || s.prod.Partial?)
  {
    var ring := Insert(s.ring, s.prod.slot);
    s.(ring := ring, inserted := s.inserted + [s.slots[s.prod.slot]],
       stats := s.stats.(maxUsed := if Used(ring) > s.stats.maxUsed then Used(ring) else s.stats.maxUsed),
       prod := if s.prod.Full? then Ready else Off)
  }

  /** A reader: copy the oldest packet out byte-swapped and free its slot. */
  function TransferOne(s: Sys): Sys
    requires WellFormed(s)
  {
    if Used(s.ring) == 0 then s   // keeps waiting
    else if !(0 <= s.ring.idx[s.ring.tail] < N) then s.(fault := true)
    else s.(delivered := s.delivered + [SwapPacket(s.slots[s.ring.idx[s.ring.tail]])],
            fates := s.fates + [Delivered], ring := Remove(s.ring))
  }

  function Wipe(s: Sys): Sys
    requires WellFormed(s)
  {
    s.(ring := Cleared(), fates := s.fates + seq(Used(s.ring), _ => Wiped))
  }

  function Step(s: Sys, a: Action): (e: Sys)
    requires WellFormed(s)
    ensures WellFormed(e)
  {
    match a
    case ThreadStart =>
      if s.prod.Off?
      then Wipe(s).(stats := NO_STATS, prod := Ready, stream := [], base := |s.inserted|, carried := 0)
      else s
    case Choose => if s.prod.Ready? then ChooseSlot(s) else s
    case Begin =>
      if s.prod.Chosen? then s.(prod := if s.stats.pktLost > MAX_LOST then Off else Filling(s.prod.slot, 0)) else s
    case Receive(w) => if s.prod.Filling? then ReceiveWord(s, w) else s
    case Stop => if s.prod.Filling? then s.(prod := Partial(s.prod.slot), stopped := true) else s
    case Publish => if s.prod.Full? || s.prod.Partial? then PublishSlot(s) else s
    case Transfer => TransferOne(s)
    case ResetStats => s.(stats := NO_STATS, carried := if s.prod.Filling? then s.prod.cnt else 0)
    case ClearRing => Wipe(s)
  }

  function Run(s: Sys, acts: seq<Action>): (e: Sys)
    requires WellFormed(s)
    ensures WellFormed(e)
  {
    if acts == [] then s else Step(Run(s, acts[..|acts| - 1]), acts[|acts| - 1])
  }

  /** After probe: zeroed ring and packet memory, no thread. */
  function Probed(): (s: Sys)
    ensures WellFormed(s)
  {
    Sys(Cleared(), seq(N, _ => seq(PACKET_WORDS, _ => 0)), Off, NO_STATS, [], [], [], [], 0, 0, false, false)
  }

  // ======== what holds in every reachable state ========

  /** The slot the receive thread holds while it has no lock. */
  predicate Holds(p: Producer) {
    !p.Off? && !p.Ready?
  }

  /** The held slot is not queued, so filling it disturbs no queued packet, and there is
      room to queue it. */
  predicate HeldSlotFree(s: Sys)
    requires WellFormed(s)
  {
    Holds(s.prod) ==> s.prod.slot !in Window(s.ring) && Used(s.ring) <= N - 2
  }

  /** The queue holds, in order, exactly the packets queued and not yet gone, unchanged. */
  predicate QueueIsInserted(s: Sys)
    requires WellFormed(s) && Consistent(s.ring)
  {
    && |s.inserted| == |s.fates| + Used(s.ring)
    && forall k :: 0 <= k < Used(s.ring) ==> s.slots[Window(s.ring)[k]] == s.inserted[|s.fates| + k]
  }

  /** What readers were given: the packets with fate Delivered, in the order queued. */
  function Handed(inserted: seq<seq<word>>, fates: seq<Fate>): seq<seq<word>>
    requires |fates| <= |inserted|
  {
    if fates == [] then [] else
      var n := |fates| - 1;
      Handed(inserted, fates[..n]) + if fates[n].Delivered? then [SwapPacket(inserted[n])] else []
  }

  function Count(fates: seq<Fate>, f: Fate): nat {
    if fates == [] then 0 else Count(fates[..|fates| - 1], f) + if fates[|fates| - 1] == f then 1 else 0
  }

  /** This thread's packets are the greedy split of the words it has read. */
  predicate Packetized(s: Sys)
    requires WellFormed(s)
  {
    var sp := SplitOf(s.stream);
    s.base <= |s.inserted| && |sp.partial| <= PACKET_WORDS &&
    match s.prod
    case Off => true
    case Partial(slot) =>
      s.slots[slot][..|sp.partial|] == sp.partial && s.inserted[s.base..] == PacketsOf(sp.segments)
    case Ready => sp.partial == [] && s.inserted[s.base..] == PacketsOf(sp.segments)
    case Chosen(_) => sp.partial == [] && s.inserted[s.base..] == PacketsOf(sp.segments)
    case Filling(slot, cnt) =>
      cnt == |sp.partial| && s.slots[slot][..cnt] == sp.partial && s.inserted[s.base..] == PacketsOf(sp.segments)
    case Full(slot) =>
      sp.partial == [] && s.inserted[s.base..] + [s.slots[slot]] == PacketsOf(sp.segments)
  }

  /** Every word since the last reset is in a packet, skipped, or in the unfinished one. */
  predicate WordsAccounted(s: Sys) {
    s.prod.Off? || s.prod.Partial? ||
    s.stats.dwords + s.carried ==
      PACKET_WORDS * s.stats.pktOk + s.stats.skip + if s.prod.Filling? then s.prod.cnt else 0
  }

  /** Without a stop request only complete packets are ever queued. */
  predicate WholePackets(s: Sys) {
    s.stopped || (!s.prod.Partial? && forall k :: 0 <= k < |s.inserted| ==> IsPacket(s.inserted[k]))
  }

  predicate Inv(s: Sys) {
    && WellFormed(s) && Consistent(s.ring) && !s.fault
    && HeldSlotFree(s) && QueueIsInserted(s)
    && s.delivered == Handed(s.inserted, s.fates)
    && Packetized(s) && WordsAccounted(s) && WholePackets(s)
  }

  // -------- helpers about fates --------

  lemma HandedNext(inserted: seq<seq<word>>, fates: seq<Fate>, f: Fate)
    requires |fates| < |inserted|
    ensures Handed(inserted, fates + [f]) ==
              Handed(inserted, fates) + if f.Delivered? then [SwapPacket(inserted[|fates|])] else []
  {
    hide SwapPacket;
    assert (fates + [f])[..|fates|] == fates;
  }

  lemma {:induction false} HandedGrows(inserted: seq<seq<word>>, more: seq<seq<word>>, fates: seq<Fate>)
    requires |fates| <= |inserted|
    ensures Handed(inserted + more, fates) == Handed(inserted, fates)
  {
    if fates != [] {
      HandedGrows(inserted, more, fates[..|fates| - 1]);
    }
  }

  lemma {:induction false} HandedWiped(inserted: seq<seq<word>>, fates: seq<Fate>, n: nat)
    requires |fates| + n <= |inserted|
    ensures Handed(inserted, fates + seq(n, _ => Wiped)) == Handed(inserted, fates)
  {
    if n == 0 {
      assert fates + seq(0, _ => Wiped) == fates;
    } else {
      HandedWiped(inserted, fates, n - 1);
      HandedNext(inserted, fates + seq(n - 1, _ => Wiped), Wiped);
      assert fates + seq(n, _ => Wiped) == (fates + seq(n - 1, _ => Wiped)) + [Wiped];
    }
  }

  // -------- each step keeps the invariant --------

  /** The oldest packet leaves the ring with a fate. */
  lemma TailLeaves(s: Sys, f: Fate)
    requires Inv(s) && Used(s.ring) > 0 && 0 <= s.ring.idx[s.ring.tail] < N
    ensures var e := s.(ring := Remove(s.ring), fates := s.fates + [f],
                        delivered := s.delivered +
                          if f.Delivered? then [SwapPacket(s.slots[s.ring.idx[s.ring.tail]])] else []);
            Inv(e) && Used(e.ring) == Used(s.ring) - 1
  {
    RemoveWindow(s.ring);
    TailEntry(s.ring);
    HandedNext(s.inserted, s.fates, f);
    OldestIsInserted(s);
    UsedIsLength(s.ring);
    UsedIsLength(Remove(s.ring));
    hide Consistent, Window, Remove, Used, Handed, SwapPacket, QueueIsInserted, HeldSlotFree;
    hide Packetized, WordsAccounted, WholePackets;
    var e := s.(ring := Remove(s.ring), fates := s.fates + [f],
                delivered := s.delivered + if f.Delivered? then [SwapPacket(s.slots[s.ring.idx[s.ring.tail]])] else []);
    QueueMovesUp(s, e);
    PacketsUnaffected(s, e);
  }

  lemma OldestIsInserted(s: Sys)
    requires Inv(s) && Used(s.ring) > 0 && 0 <= s.ring.idx[s.ring.tail] < N
    ensures |s.fates| < |s.inserted| && s.inserted[|s.fates|] == s.slots[s.ring.idx[s.ring.tail]]
  {
    TailEntry(s.ring);
    hide Consistent, Window, Handed, Packetized, WordsAccounted, WholePackets, HeldSlotFree;
    assert s.slots[Window(s.ring)[0]] == s.inserted[|s.fates| + 0];
  }

  /** What is said of packets and words does not depend on the ring. */
  lemma PacketsUnaffected(s: Sys, e: Sys)
    requires WellFormed(s) && WellFormed(e) && e.slots == s.slots && e.prod == s.prod && e.inserted == s.inserted
    requires e.base == s.base && e.stream == s.stream && e.stats == s.stats && e.carried == s.carried
    requires e.stopped == s.stopped && Packetized(s) && WordsAccounted(s) && WholePackets(s)
    ensures Packetized(e) && WordsAccounted(e) && WholePackets(e)
  {
    hide SplitOf, PacketsOf, IsPacket, Shaped;
  }

  /** One packet fewer queued, one fate more. */
  lemma QueueMovesUp(s: Sys, e: Sys)
    requires WellFormed(s) && Consistent(s.ring) && QueueIsInserted(s) && HeldSlotFree(s)
    requires WellFormed(e) && Consistent(e.ring) && e.slots == s.slots && e.inserted == s.inserted && e.prod == s.prod
    requires |e.fates| == |s.fates| + 1 && Used(e.ring) == Used(s.ring) - 1
    requires |Window(s.ring)| == Used(s.ring) && Window(e.ring) == Window(s.ring)[1..]
    ensures QueueIsInserted(e) && HeldSlotFree(e)
  {
    WindowInRange(e.ring);
    hide Consistent, Window;
    forall k | 0 <= k < Used(e.ring)
      ensures e.slots[Window(e.ring)[k]] == e.inserted[|e.fates| + k]
    {
      assert Window(e.ring)[k] == Window(s.ring)[k + 1];
    }
  }

  lemma WipeKeeps(s: Sys)
    requires Inv(s)
    ensures Inv(Wipe(s))
  {
    ClearedWindow();
    HandedWiped(s.inserted, s.fates, Used(s.ring));
    UsedIsLength(Cleared());
    hide Consistent, Window, Used, Handed, Cleared, HeldSlotFree, Packetized, WordsAccounted, WholePackets;
    PacketsUnaffected(s, Wipe(s));
    HeldStaysFree(s, Wipe(s));
  }

  lemma HeldStaysFree(s: Sys, e: Sys)
    requires WellFormed(s) && WellFormed(e) && HeldSlotFree(s) && e.prod == s.prod
    requires Window(e.ring) == [] && Used(e.ring) == 0
    ensures HeldSlotFree(e)
  {
    hide Window, Used;
  }

  /** The state from which a slot is chosen: room made if there was none. */
  function WithRoom(s: Sys): (e: Sys)
    requires Inv(s)
  {
    if Vacant(s.ring) == 0 && 0 <= s.ring.idx[s.ring.tail] < N
    then s.(ring := Remove(s.ring), stats := s.stats.(pktLost := s.stats.pktLost + 1), fates := s.fates + [Dropped])
    else s
  }

  lemma RoomIsMade(s: Sys)
    requires Inv(s) && s.prod.Ready?
    ensures Vacant(s.ring) == 0 ==> 0 <= s.ring.idx[s.ring.tail] < N
    ensures Inv(WithRoom(s)) && Used(WithRoom(s).ring) <= N - 2
  {
    CountAndSpace(s.ring);
    if Vacant(s.ring) == 0 {
      TailEntry(s.ring);
      TailLeaves(s, Dropped);
      assert s.delivered + [] == s.delivered;
    }
    hide Consistent, Window, Remove, Handed, SplitOf;
  }

  lemma ChooseKeeps(s: Sys)
    requires Inv(s) && s.prod.Ready?
    ensures Inv(ChooseSlot(s)) && ChooseSlot(s).prod.Chosen?
  {
    hide Inv, ChooseSlot, FreeFrom, WithRoom;
    ChosenIs(s);
    SlotHeld(WithRoom(s), FreeFrom(WithRoom(s).ring.flag, 0));
  }

  /** The slot chosen is the first free one once there is room. */
  lemma ChosenIs(s: Sys)
    requires Inv(s) && s.prod.Ready?
    ensures var e := WithRoom(s); var slot := FreeFrom(e.ring.flag, 0);
            && Inv(e) && e.prod.Ready? && Used(e.ring) <= N - 2
            && 0 <= slot < N && slot !in Window(e.ring) && ChooseSlot(s) == e.(prod := Chosen(slot))
  {
    RoomIsMade(s);
    FreeSlotExists(WithRoom(s).ring);
    hide Consistent, Window, Remove, FreeFrom, Handed, SplitOf, PacketsOf, QueueIsInserted, HeldSlotFree;
  }

  /** A slot that is not queued may be held. */
  lemma SlotHeld(s: Sys, slot: int)
    requires Inv(s) && s.prod.Ready? && Used(s.ring) <= N - 2 && 0 <= slot < N && slot !in Window(s.ring)
    ensures Inv(s.(prod := Chosen(slot)))
  {
    hide Consistent, Window, Handed, SplitOf, PacketsOf;
  }

  lemma WindowInRange(r: Ring)
    requires Consistent(r)
    ensures forall k :: 0 <= k < Used(r) ==> 0 <= Window(r)[k] < N
  {
  }

  /** Filling the held slot leaves every queued packet as it was inserted. */
  lemma FillingDisturbsNothing(s: Sys, w: word)
    requires Inv(s) && s.prod.Filling?
    ensures QueueIsInserted(ReceiveWord(s, w))
  {
    WindowInRange(s.ring);
    hide Consistent, Window, Handed, SplitOf, Paketizer;
    var e := ReceiveWord(s, w);
    forall k | 0 <= k < Used(s.ring)
      ensures e.slots[Window(e.ring)[k]] == s.inserted[|s.fates| + k]
    {
      assert Window(s.ring)[k] != s.prod.slot;
    }
  }

  lemma ReceiveSplits(s: Sys, w: word)
    requires WellFormed(s) && s.prod.Filling? && Packetized(s)
    ensures Packetized(ReceiveWord(s, w))
  {
    SplitIsValid(s.stream);
    SplitOfNext(s.stream, w);
    PacketsAfterWord(SplitOf(s.stream), s.slots[s.prod.slot], w);
    WordInSlot(s, w);
    hide SplitOf, Feed, PacketsOf, Paketizer, ValidSplit, Stream, ReceiveWord, Shaped;
    var r, t := Paketizer(w, s.slots[s.prod.slot], s.prod.cnt), Feed(SplitOf(s.stream), w);
    PacketizedBy(ReceiveWord(s, w), s.prod.slot, r, t);
  }

  /** The state behind a word, read off the packetizer's result and the split. */
  lemma PacketizedBy(e: Sys, slot: int, r: Packed, t: Split)
    requires WellFormed(e) && 0 <= slot < N && e.slots[slot] == r.packet && SplitOf(e.stream) == t
    requires e.prod == (if r.rv > 0 then Full(slot) else Filling(slot, r.cnt)) && (r.rv > 0 <==> r.rv == 1)
    requires e.base <= |e.inserted| && r.cnt == |t.partial| <= PACKET_WORDS == |r.packet|
    requires r.packet[..r.cnt] == t.partial
    requires r.rv == 1 ==> t.partial == [] && PacketsOf(t.segments) == e.inserted[e.base..] + [r.packet]
    requires r.rv != 1 ==> PacketsOf(t.segments) == e.inserted[e.base..]
    ensures Packetized(e)
  {
    hide SplitOf, PacketsOf, Shaped;
  }

  /** What a received word changes of the packet state. */
  lemma WordInSlot(s: Sys, w: word)
    requires WellFormed(s) && s.prod.Filling?
    ensures var e := ReceiveWord(s, w); var slot := s.prod.slot; var r := Paketizer(w, s.slots[slot], s.prod.cnt);
            && WellFormed(e) && e.slots[slot] == r.packet && e.stream == s.stream + [w]
            && e.base == s.base && e.inserted == s.inserted
            && e.prod == if r.rv > 0 then Full(slot) else Filling(slot, r.cnt)
  {
    hide Shaped, IsSync;
  }

  /** One word through the packetizer: the unfinished packet stands in the slot, and a
      completed one joins the packets of the split. */
  lemma PacketsAfterWord(sp: Split, packet: seq<word>, w: word)
    requires ValidSplit(sp) && |packet| == PACKET_WORDS && packet[..|sp.partial|] == sp.partial
    ensures var r := Paketizer(w, packet, |sp.partial|); var t := Feed(sp, w);
            && r.cnt == |t.partial| && r.packet[..r.cnt] == t.partial
            && (r.rv > 0 <==> r.rv == 1) && (r.rv == 1 ==> t.partial == [])
            && (r.rv == 1 ==> PacketsOf(t.segments) == PacketsOf(sp.segments) + [r.packet])
            && (r.rv != 1 ==> PacketsOf(t.segments) == PacketsOf(sp.segments))
  {
    PaketizerFeeds(sp, packet, w);
    PacketsAfterFeed(sp, w);
    hide PacketsOf;
  }

  lemma ReceiveAccounts(s: Sys, w: word)
    requires WellFormed(s) && s.prod.Filling? && WordsAccounted(s)
    ensures WordsAccounted(ReceiveWord(s, w))
  {
    hide IsSync;
  }

  lemma PacketsAfterFeed(sp: Split, w: word)
    ensures var t := Feed(sp, w);
            PacketsOf(t.segments) == PacketsOf(sp.segments) +
              if t.segments != sp.segments && t.segments[|sp.segments|].Packet?
              then [t.segments[|sp.segments|].words] else []
  {
    var t := Feed(sp, w);
    if t.segments != sp.segments {
      assert t.segments[..|sp.segments|] == sp.segments;
    }
  }

  lemma ReceiveKeeps(s: Sys, w: word)
    requires Inv(s) && s.prod.Filling?
    ensures Inv(ReceiveWord(s, w))
  {
    FillingDisturbsNothing(s, w);
    ReceiveSplits(s, w);
    ReceiveAccounts(s, w);
    hide Consistent, Window, Handed, SplitOf, Paketizer, QueueIsInserted;
  }

  lemma PublishKeeps(s: Sys)
    requires Inv(s) && (s.prod.Full? || s.prod.Partial?)
    ensures Inv(PublishSlot(s))
  {
    hide Consistent, Window, Handed, SplitOf, PacketsOf, QueueIsInserted, HeldSlotFree, Packetized, WholePackets;
    PublishQueues(s);
    PublishSplits(s);
  }

  lemma PublishQueues(s: Sys)
    requires Inv(s) && (s.prod.Full? || s.prod.Partial?)
    ensures var e := PublishSlot(s);
            && WellFormed(e) && Consistent(e.ring) && HeldSlotFree(e) && QueueIsInserted(e)
            && e.delivered == Handed(e.inserted, e.fates)
  {
    var slot := s.prod.slot;
    InsertWindow(s.ring, slot);
    HandedGrows(s.inserted, [s.slots[slot]], s.fates);
    UsedIsLength(s.ring);
    UsedIsLength(Insert(s.ring, slot));
    WindowInRange(s.ring);
    hide Consistent, Window, Handed, Packetized, WordsAccounted, WholePackets, Used, Insert, Shaped;
    var e := PublishSlot(s);
    QueueGrows(s, e, slot);
  }

  /** One slot more queued, and its packet inserted. */
  lemma QueueGrows(s: Sys, e: Sys, slot: int)
    requires WellFormed(s) && Consistent(s.ring) && QueueIsInserted(s) && 0 <= slot < N
    requires WellFormed(e) && Consistent(e.ring) && e.slots == s.slots && e.fates == s.fates
    requires e.inserted == s.inserted + [s.slots[slot]]
    requires |Window(s.ring)| == Used(s.ring) && |Window(e.ring)| == Used(e.ring)
    requires Window(e.ring) == Window(s.ring) + [slot]
    ensures QueueIsInserted(e)
  {
    WindowInRange(s.ring);
    WindowInRange(e.ring);
    hide Consistent, Window, Used, Shaped;
    forall k | 0 <= k < Used(e.ring)
      ensures e.slots[Window(e.ring)[k]] == e.inserted[|e.fates| + k]
    {
      assert k < Used(s.ring) ==> Window(e.ring)[k] == Window(s.ring)[k];
    }
  }

  lemma UsedIsLength(r: Ring)
    requires Shaped(r)
    ensures |Window(r)| == Used(r)
  {
  }

  lemma PublishSplits(s: Sys)
    requires Inv(s) && (s.prod.Full? || s.prod.Partial?)
    ensures WellFormed(PublishSlot(s)) && Packetized(PublishSlot(s)) && WholePackets(PublishSlot(s))
  {
    if s.prod.Full? && !s.stopped {
      FullIsPacket(s);
    }
    hide Packetized, WholePackets, WordsAccounted, QueueIsInserted, HeldSlotFree, Handed, Consistent;
    PublishedFields(s);
    hide PublishSlot, Inv;
    PublishedSplit(s, PublishSlot(s));
    PublishedWhole(s, PublishSlot(s));
  }

  lemma PublishedFields(s: Sys)
    requires Inv(s) && (s.prod.Full? || s.prod.Partial?)
    ensures var e := PublishSlot(s);
            && WellFormed(e) && e.prod == (if s.prod.Full? then Ready else Off) && e.stopped == s.stopped
            && e.stream == s.stream && e.base == s.base && e.inserted == s.inserted + [s.slots[s.prod.slot]]
    ensures Packetized(s) && WholePackets(s)
  {
    hide Packetized, WholePackets, WordsAccounted, QueueIsInserted, HeldSlotFree, Handed, Consistent;
  }

  lemma PublishedSplit(s: Sys, e: Sys)
    requires WellFormed(s) && WellFormed(e) && Packetized(s) && (s.prod.Full? || s.prod.Partial?)
    requires e.prod == (if s.prod.Full? then Ready else Off) && e.stream == s.stream && e.base == s.base
    requires e.inserted == s.inserted + [s.slots[s.prod.slot]]
    ensures Packetized(e)
  {
    hide SplitOf, PacketsOf, Shaped;
    assert e.inserted[s.base..] == s.inserted[s.base..] + [s.slots[s.prod.slot]];
  }

  lemma PublishedWhole(s: Sys, e: Sys)
    requires WellFormed(s) && WellFormed(e) && WholePackets(s) && (s.prod.Full? || s.prod.Partial?)
    requires e.prod == (if s.prod.Full? then Ready else Off) && e.stopped == s.stopped
    requires e.inserted == s.inserted + [s.slots[s.prod.slot]]
    requires s.prod.Full? && !s.stopped ==> IsPacket(s.slots[s.prod.slot])
    ensures WholePackets(e)
  {
    hide IsPacket, Shaped;
  }

  lemma {:induction false} PacketsArePackets(gs: seq<Segment>)
    requires forall g :: g in gs ==> ValidSegment(g)
    ensures forall p :: p in PacketsOf(gs) ==> IsPacket(p)
  {
    if gs != [] {
      PacketsArePackets(gs[..|gs| - 1]);
      assert gs[|gs| - 1] in gs;
    }
  }

  lemma FullIsPacket(s: Sys)
    requires Inv(s) && s.prod.Full?
    ensures IsPacket(s.slots[s.prod.slot])
  {
    hide Consistent, Window, Handed;
    SplitIsValid(s.stream);
    var ps := PacketsOf(SplitOf(s.stream).segments);
    PacketsArePackets(SplitOf(s.stream).segments);
    assert ps[|ps| - 1] in ps;
  }

  lemma ThreadStartKeeps(s: Sys)
    requires Inv(s)
    ensures Inv(Step(s, ThreadStart))
  {
    WipeKeeps(s);
    var e := Step(s, ThreadStart);
    assert SplitOf([]) == Split([], []);
    hide Consistent, Window, Handed, Wipe;
    assert s.prod.Off? ==> e.inserted[|s.inserted|..] == [];
  }

  lemma TransferKeeps(s: Sys)
    requires Inv(s)
    ensures Inv(TransferOne(s))
  {
    if Used(s.ring) > 0 {
      TailEntry(s.ring);
      TailLeaves(s, Delivered);
    }
  }

  /** Beginning, stopping and resetting the counters leave the ring alone. */
  lemma ControlKeeps(s: Sys, a: Action)
    requires Inv(s) && (a.Begin? || a.Stop? || a.ResetStats?)
    ensures Inv(Step(s, a))
  {
    hide Consistent, Window, Handed, SplitOf, PacketsOf;
  }

  lemma StepKeeps(s: Sys, a: Action)
    requires Inv(s)
    ensures Inv(Step(s, a))
  {
    hide Inv, Wipe, ChooseSlot, ReceiveWord, PublishSlot, TransferOne;
    match a
    case ThreadStart => ThreadStartKeeps(s);
    case Choose => if s.prod.Ready? { ChooseKeeps(s); }
    case Receive(w) => if s.prod.Filling? { ReceiveKeeps(s, w); }
    case Publish => if s.prod.Full? || s.prod.Partial? { PublishKeeps(s); }
    case Transfer => TransferKeeps(s);
    case ClearRing => WipeKeeps(s);
    case _ => ControlKeeps(s, a);
  }

  lemma ProbedIsGood()
    ensures Inv(Probed())
  {
    ClearedWindow();
  }

  /** Safety over every interleaving: the window's slots stay distinct and flagged, the
      slot being filled is never queued, queued packets stay as they were inserted, no
      error path is taken, and all accounts balance. */
  lemma {:induction false} SafeForever(acts: seq<Action>)
    ensures Inv(Run(Probed(), acts))
  {
    if acts == [] {
      ProbedIsGood();
    } else {
      SafeForever(acts[..|acts| - 1]);
      StepKeeps(Run(Probed(), acts[..|acts| - 1]), acts[|acts| - 1]);
    }
  }

  // -------- what the invariant means for readers --------

  lemma {:induction false} EveryFateCounted(fates: seq<Fate>)
    ensures |fates| == Count(fates, Delivered) + Count(fates, Dropped) + Count(fates, Wiped)
  {
    if fates != [] {
      EveryFateCounted(fates[..|fates| - 1]);
    }
  }

  /** The positions, in the order of queueing, of the packets readers got. */
  function Positions(fates: seq<Fate>): seq<nat> {
    if fates == [] then [] else
      var n := |fates| - 1;
      Positions(fates[..n]) + if fates[n].Delivered? then [n] else []
  }

  lemma {:induction false} HandedAtPositions(inserted: seq<seq<word>>, fates: seq<Fate>)
    requires |fates| <= |inserted|
    ensures var js := Positions(fates); var h := Handed(inserted, fates);
            && |js| == |h| == Count(fates, Delivered)
            && (forall i :: 0 <= i < |js| ==> js[i] < |fates| && h[i] == SwapPacket(inserted[js[i]]))
            && (forall i, j :: 0 <= i < j < |js| ==> js[i] < js[j])
  {
    hide SwapPacket;
    if fates != [] {
      HandedAtPositions(inserted, fates[..|fates| - 1]);
    }
  }

  /** Delivery is first-in first-out with gaps: readers get, byte-swapped and in order,
      a subsequence of the packets queued, and no packet is unaccounted for. */
  lemma DeliveryIsFifo(acts: seq<Action>)
    ensures var s := Run(Probed(), acts); var js := Positions(s.fates);
            && |js| == |s.delivered|
            && (forall i, j :: 0 <= i < j < |js| ==> js[i] < js[j])
            && (forall i :: 0 <= i < |js| ==> js[i] < |s.inserted| && s.delivered[i] == SwapPacket(s.inserted[js[i]]))
            && |s.inserted| == |s.delivered| + Count(s.fates, Dropped) + Count(s.fates, Wiped) + Used(s.ring)
  {
    hide Consistent, Window, SwapPacket, SplitOf;
    SafeForever(acts);
    var s := Run(Probed(), acts);
    EveryFateCounted(s.fates);
    HandedAtPositions(s.inserted, s.fates);
  }

  lemma {:induction false} StoppedNeedsStop(acts: seq<Action>)
    requires Stop !in acts
    ensures !Run(Probed(), acts).stopped
  {
    if acts != [] {
      assert acts[|acts| - 1] in acts;
      StoppedNeedsStop(acts[..|acts| - 1]);
      OnlyStopStops(Run(Probed(), acts[..|acts| - 1]), acts[|acts| - 1]);
      hide Step;
    }
  }

  lemma OnlyStopStops(s: Sys, a: Action)
    requires WellFormed(s) && !a.Stop?
    ensures Step(s, a).stopped == s.stopped
  {
    hide Consistent, Window, FreeFrom, Paketizer, SwapPacket, Insert, Remove, Cleared;
  }

  /** As long as the thread is not asked to stop, what a reader gets is always a whole
      packet: 47 words that begin with a sync word once the bytes are swapped back. */
  lemma ReadersGetWholePackets(acts: seq<Action>, i: nat)
    requires Stop !in acts && i < |Run(Probed(), acts).delivered|
    ensures IsPacket(SwapPacket(Run(Probed(), acts).delivered[i]))
  {
    hide Consistent, Window, SplitOf, Run;
    StoppedNeedsStop(acts);
    SafeForever(acts);
    DeliveryIsFifo(acts);
    var s := Run(Probed(), acts);
    SwapTwice(s.inserted[Positions(s.fates)[i]]);
  }

  /** What the thread has queued is the split of the words it has read, if and only if the
      slot just queued was complete; an unfinished one holds the words read so far in front
      of stale ones. */
  lemma QueuedIsSplitIffComplete(s: Sys)
    requires Inv(s) && (s.prod.Full? || s.prod.Partial?)
    ensures var e := PublishSlot(s); var sp := SplitOf(e.stream);
            && (e.inserted[e.base..] == PacketsOf(sp.segments) <==> s.prod.Full?)
            && |sp.partial| <= PACKET_WORDS && e.inserted == s.inserted + [s.slots[s.prod.slot]]
            && (s.prod.Partial? ==> s.slots[s.prod.slot][..|sp.partial|] == sp.partial)
  {
    var e := PublishSlot(s);
    hide Consistent, Window, Handed, SplitOf, PacketsOf;
    assert e.inserted[e.base..] == s.inserted[s.base..] + [s.slots[s.prod.slot]];
    assert |s.inserted[s.base..] + [s.slots[s.prod.slot]]| == |s.inserted[s.base..]| + 1;
  }

  /** With a stop request what is queued need not be a packet at all. */
  lemma StopQueuesPartialPacket()
    ensures var s := Run(Probed(), [ThreadStart, Choose, Begin, Stop, Publish]);
            |s.inserted| == 1 && !IsPacket(s.inserted[0])
  {
    SlotIsChosen();
    RunFive(ThreadStart, Choose, Begin, Stop, Publish);
    var s2 := Step(Step(Probed(), ThreadStart), Choose);
    hide Consistent, Window, Insert, Run, ChooseSlot, Probed, Handed;
    assert Step(s2, Begin).prod == Filling(s2.prod.slot, 0);
    assert !IsSync(s2.slots[s2.prod.slot][0]);
  }

  /** A new thread chooses a slot of zeroed memory. */
  lemma SlotIsChosen()
    ensures var s := Step(Step(Probed(), ThreadStart), Choose);
            && s.prod.Chosen? && s.inserted == [] && s.stats == NO_STATS
            && s.slots[s.prod.slot] == seq(PACKET_WORDS, _ => 0)
  {
    var s1 := Step(Probed(), ThreadStart);
    ProbedIsGood();
    StepKeeps(Probed(), ThreadStart);
    CountAndSpace(s1.ring);
    ChosenIs(s1);
    hide Consistent, Window, FreeFrom, Remove, Handed;
  }

  lemma RunFive(a: Action, b: Action, c: Action, d: Action, e: Action)
    ensures Run(Probed(), [a, b, c, d, e]) == Step(Step(Step(Step(Step(Probed(), a), b), c), d), e)
  {
    hide Step, Probed;
    assert [a, b, c, d, e][..4] == [a, b, c, d];
    assert [a, b, c, d][..3] == [a, b, c];
    assert [a, b, c][..2] == [a, b];
    assert [a, b][..1] == [a];
    assert [a][..0] == [];
    assert Run(Probed(), []) == Probed();
    assert Run(Probed(), [a]) == Step(Probed(), a);
    assert Run(Probed(), [a, b]) == Step(Run(Probed(), [a]), b);
    assert Run(Probed(), [a, b, c]) == Step(Run(Probed(), [a, b]), c);
    assert Run(Probed(), [a, b, c, d]) == Step(Run(Probed(), [a, b, c]), d);
  }
}
