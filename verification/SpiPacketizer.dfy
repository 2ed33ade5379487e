/** The word packetizer of the SPI slave driver and the stream split it performs. */
module SpiPacketizer {

  type word = bv32

  const PACKET_WORDS: nat := 47   // PACKET_SIZE_DWORD: 188 bytes

  predicate IsSync(w: word) {
    (w >> 24) & 0xFF == 0x47
  }

  /** Buffer, fill count and return code after one word. */
  datatype Packed = Packed(packet: seq<word>, cnt: nat, rv: int)

  function Paketizer(val: word, packet: seq<word>, cnt: nat): (r: Packed)
    requires |packet| == PACKET_WORDS && cnt < PACKET_WORDS
    ensures |r.packet| == PACKET_WORDS && r.cnt < PACKET_WORDS
  {
    var packet' := packet[cnt := val];
    if cnt + 1 == 1 then
      if IsSync(val) then Packed(packet', 1, 0) else Packed(packet', 0, -3)
    else if cnt + 1 == PACKET_WORDS then Packed(packet', 0, 1)
    else Packed(packet', cnt + 1, 0)
  }

  // ======== the stream split ========

  datatype Segment = Skip(w: word) | Packet(words: seq<word>)

  /** A word stream cut into skipped words and packets, with an unfinished packet behind. */
  datatype Split = Split(segments: seq<Segment>, partial: seq<word>)

  predicate IsPacket(ws: seq<word>) {
    |ws| == PACKET_WORDS && IsSync(ws[0])
  }

  predicate ValidSegment(g: Segment) {
    match g
    case Skip(w) => !IsSync(w)
    case Packet(ws) => IsPacket(ws)
  }

  /** Words are skipped only between packets and only when they carry no sync byte;
      a packet is a sync word and the 46 words behind it. */
  predicate ValidSplit(s: Split) {
    && (forall g :: g in s.segments ==> ValidSegment(g))
    && |s.partial| < PACKET_WORDS
    && (s.partial != [] ==> IsSync(s.partial[0]))
  }

  function Words(g: Segment): seq<word> {
    match g
    case Skip(w) => [w]
    case Packet(ws) => ws
  }

  function Flatten(gs: seq<Segment>): seq<word> {
    if gs == [] then [] else Words(gs[0]) + Flatten(gs[1..])
  }

  function Stream(s: Split): seq<word> {
    Flatten(s.segments) + s.partial
  }

  function PacketsOf(gs: seq<Segment>): seq<seq<word>> {
    if gs == [] then [] else
      PacketsOf(gs[..|gs| - 1]) + match gs[|gs| - 1] case Skip(_) => [] case Packet(ws) => [ws]
  }

  function SkipsOf(gs: seq<Segment>): nat {
    if gs == [] then 0 else
      SkipsOf(gs[..|gs| - 1]) + match gs[|gs| - 1] case Skip(_) => 1 case Packet(_) => 0
  }

  /** One word at a time, as the packetizer does it. */
  function Feed(s: Split, w: word): Split {
    if s.partial == [] && !IsSync(w) then Split(s.segments + [Skip(w)], [])
    else if |s.partial| + 1 == PACKET_WORDS then Split(s.segments + [Packet(s.partial + [w])], [])
    else Split(s.segments, s.partial + [w])
  }

  function SplitOf(ws: seq<word>): Split {
    if ws == [] then Split([], []) else Feed(SplitOf(ws[..|ws| - 1]), ws[|ws| - 1])
  }

  lemma SplitOfNext(ws: seq<word>, w: word)
    ensures SplitOf(ws + [w]) == Feed(SplitOf(ws), w)
  {
    assert (ws + [w])[..|ws|] == ws;
  }

  lemma {:induction false} FlattenAppend(gs: seq<Segment>, g: Segment)
    ensures Flatten(gs + [g]) == Flatten(gs) + Words(g)
  {
    if gs == [] {
      assert Flatten([g]) == Words(g) + Flatten([]);
    } else {
      FlattenAppend(gs[1..], g);
      FlattenFirst(gs[0], gs[1..] + [g]);
      FlattenFirst(gs[0], gs[1..]);
      assert gs == [gs[0]] + gs[1..] && gs + [g] == [gs[0]] + (gs[1..] + [g]);
      hide Flatten, Words;
      assert Flatten(gs + [g]) == Words(gs[0]) + (Flatten(gs[1..]) + Words(g));
    }
  }

  lemma FlattenFirst(g: Segment, gs: seq<Segment>)
    ensures Flatten([g] + gs) == Words(g) + Flatten(gs)
  {
    assert ([g] + gs)[1..] == gs;
  }

  /** Feeding word by word yields a valid split that loses and invents no word. */
  lemma {:induction false} SplitIsValid(ws: seq<word>)
    ensures ValidSplit(SplitOf(ws)) && Stream(SplitOf(ws)) == ws
  {
    if ws != [] {
      var n := |ws| - 1;
      SplitIsValid(ws[..n]);
      assert ws == ws[..n] + [ws[n]];
      FeedIsValid(SplitOf(ws[..n]), ws[n]);
    }
  }

  lemma FeedIsValid(s: Split, w: word)
    requires ValidSplit(s)
    ensures ValidSplit(Feed(s, w)) && Stream(Feed(s, w)) == Stream(s) + [w]
  {
    var g := if s.partial == [] && !IsSync(w) then Skip(w) else Packet(s.partial + [w]);
    FlattenAppend(s.segments, g);
    if Feed(s, w).partial == [] {
      assert Feed(s, w).segments == s.segments + [g];
      assert ValidSegment(g);
    }
  }

  /** There is only one way to split a stream: the packetizer's. */
  lemma {:induction false} SplitIsUnique(a: Split, b: Split)
    requires ValidSplit(a) && ValidSplit(b) && Stream(a) == Stream(b)
    ensures a == b
    decreases |a.segments|
  {
    if a.segments == [] {
      NoSegmentsLeft(a, b);
    } else if b.segments == [] {
      NoSegmentsLeft(b, a);
    } else {
      BehindFirst(a);
      BehindFirst(b);
      SameFirst(a.segments[0], Stream(Behind(a)), b.segments[0], Stream(Behind(b)));
      SplitIsUnique(Behind(a), Behind(b));
      assert a.segments == [a.segments[0]] + Behind(a).segments;
      assert b.segments == [b.segments[0]] + Behind(b).segments;
    }
  }

  /** The split without its first segment. */
  function Behind(s: Split): Split
    requires s.segments != []
  {
    Split(s.segments[1..], s.partial)
  }

  lemma BehindFirst(s: Split)
    requires ValidSplit(s) && s.segments != []
    ensures ValidSegment(s.segments[0]) && ValidSplit(Behind(s))
    ensures Stream(s) == Words(s.segments[0]) + Stream(Behind(s))
  {
    assert s.segments[0] in s.segments;
    assert Stream(s) == Words(s.segments[0]) + (Flatten(s.segments[1..]) + s.partial);
  }

  /** The first word tells a skipped word from a packet. */
  lemma SameFirst(g: Segment, x: seq<word>, h: Segment, y: seq<word>)
    requires ValidSegment(g) && ValidSegment(h) && Words(g) + x == Words(h) + y
    ensures g == h && x == y
  {
    var s := Words(g) + x;
    assert s[0] == Words(g)[0] && s[0] == Words(h)[0];
    assert |Words(g)| == |Words(h)|;
    assert s[..|Words(g)|] == Words(g) && s[..|Words(h)|] == Words(h);
    assert s[|Words(g)|..] == x && s[|Words(h)|..] == y;
  }

  lemma StreamStart(b: Split)
    requires ValidSplit(b) && b.segments != []
    ensures |Stream(b)| >= 1 && (IsSync(Stream(b)[0]) ==> |Stream(b)| >= PACKET_WORDS)
  {
    BehindFirst(b);
  }

  lemma NoSegmentsLeft(a: Split, b: Split)
    requires ValidSplit(a) && ValidSplit(b) && Stream(a) == Stream(b) && a.segments == []
    ensures a == b
  {
    assert Stream(a) == a.partial;
    if b.segments != [] {
      StreamStart(b);
      assert false;
    }
    assert Stream(b) == b.partial;
  }

  /** The packetizer on a 47-word buffer is Feed, whatever stale words the buffer holds. */
  lemma PaketizerFeeds(s: Split, packet: seq<word>, val: word)
    requires ValidSplit(s) && |packet| == PACKET_WORDS && packet[..|s.partial|] == s.partial
    ensures var r := Paketizer(val, packet, |s.partial|); var t := Feed(s, val);
            && r.cnt == |t.partial| && r.packet[..r.cnt] == t.partial
            && (r.rv == 1 <==> t.segments != s.segments && t.segments[|s.segments|].Packet?)
            && (r.rv == 1 ==> t.segments == s.segments + [Packet(r.packet)])
            && (r.rv == -3 <==> t.segments == s.segments + [Skip(val)])
            && (r.rv == 0 <==> t.segments == s.segments)
  {
    var r := Paketizer(val, packet, |s.partial|);
    if |s.partial| + 1 == PACKET_WORDS {
      assert r.packet == s.partial + [val];
    }
  }

  /** Word conservation: every word is in a packet, skipped, or in the unfinished packet. */
  lemma {:induction false} WordsConserved(ws: seq<word>)
    ensures var s := SplitOf(ws); |ws| == PACKET_WORDS * |PacketsOf(s.segments)| + SkipsOf(s.segments) + |s.partial|
  {
    if ws != [] {
      var n := |ws| - 1;
      WordsConserved(ws[..n]);
      var s, w := SplitOf(ws[..n]), ws[n];
      assert (s.segments + [Skip(w)])[..|s.segments|] == s.segments;
      assert (s.segments + [Packet(s.partial + [w])])[..|s.segments|] == s.segments;
    }
  }
}
