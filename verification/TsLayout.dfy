/** Transport packets as section 2.4.3.2 of ISO/IEC 13818-1 lays them out, and what the three
    programs make of them: header fields, adaptation field, payload, clock and PES header. */
module TsLayout {
  import opened Basics
  import opened TsPacket
  import opened TsTimestamps
  import opened TsTables
  import opened TsAnalyzer
  import opened TsPes
  import C = TsContinuity
  import E = TsExtract

  type bits2 = x: int | 0 <= x < 4
  type bits4 = x: int | 0 <= x < 16

  datatype Header = Header(error: bool, start: bool, priority: bool, pid: pid13,
                           scrambling: bits2, control: bits2, counter: bits4)

  function Flags(h: Header): int {
    (if h.error then 128 else 0) + (if h.start then 64 else 0) + (if h.priority then 32 else 0)
  }

  /** What follows the four header bytes: a length byte and an adaptation field if the
      control says so, and the payload if it says so. */
  function Body(control: bits2, field: seq<octet>, payload: seq<octet>): seq<octet>
    requires |field| < 256
  {
    if control == 3 then [|field|] + field + payload
    else if control == 2 then [|field|] + field
    else payload
  }

  predicate Laid(pkt: seq<octet>, h: Header, field: seq<octet>, payload: seq<octet>) {
    && |pkt| == 188 && |field| <= 183
    && pkt[0] == 0x47
    && 0 <= pkt[1] as int - Flags(h) < 32 && h.pid == (pkt[1] as int - Flags(h)) * 256 + pkt[2] as int
    && pkt[3] == h.scrambling * 64 + h.control * 16 + h.counter
    && pkt[4..] == Body(h.control, field, payload)
  }

  lemma FlagsAreRead(h: Header, b1: octet, hi: int)
    requires 0 <= hi < 32 && b1 == Flags(h) + hi
    ensures b1 / 64 % 2 == 1 <==> h.start
    ensures b1 % 32 == hi
  {
  }

  lemma ControlIsRead(h: Header, b3: octet)
    requires b3 == h.scrambling * 64 + h.control * 16 + h.counter
    ensures b3 / 16 % 4 == h.control && b3 % 16 == h.counter
  {
    var q := 4 * h.scrambling + h.control;
    assert b3 == 16 * q + h.counter;
    assert b3 / 16 == q;
  }

  lemma HeaderIsRead(pkt: seq<octet>, h: Header, field: seq<octet>, payload: seq<octet>)
    requires Laid(pkt, h, field, payload)
    ensures pkt[0] == SYNC && PidOf(pkt) == h.pid && PusiOf(pkt) == h.start
    ensures AdaptationOf(pkt) == h.control && CounterOf(pkt) == h.counter
  {
    FlagsAreRead(h, pkt[1], pkt[1] as int - Flags(h));
    ControlIsRead(h, pkt[3]);
    hide Flags, Body;
  }

  lemma FieldIsThere(pkt: seq<octet>, h: Header, field: seq<octet>, payload: seq<octet>)
    requires Laid(pkt, h, field, payload) && h.control >= 2
    ensures pkt[4] as int == |field| && 5 + |field| <= 188 && pkt[5..5 + |field|] == field
    ensures h.control == 3 ==> pkt[5 + |field|..] == payload && |payload| == 183 - |field|
  {
    var body := Body(h.control, field, payload);
    assert pkt[4] == pkt[4..][0] == body[0];
    assert pkt[5..5 + |field|] == pkt[4..][1..1 + |field|] == body[1..1 + |field|] == field;
    if h.control == 3 {
      assert pkt[5 + |field|..] == pkt[4..][1 + |field|..] == body[1 + |field|..] == payload;
    }
  }

  /** The payload is found where it is, and only where there is one. */
  lemma PayloadIsRead(pkt: seq<octet>, h: Header, field: seq<octet>, payload: seq<octet>)
    requires Laid(pkt, h, field, payload)
    ensures h.control == 1 || (h.control == 3 && payload != []) ==>
              PayloadStart(pkt) < TS_SIZE && pkt[PayloadStart(pkt)..] == payload
    ensures h.control == 0 || h.control == 2 || payload == [] ==> PayloadStart(pkt) == TS_SIZE
  {
    HeaderIsRead(pkt, h, field, payload);
    if h.control >= 2 {
      FieldIsThere(pkt, h, field, payload);
    }
  }

  /** A packet of a known stream leads to exactly one call, with its PID and payload. */
  lemma OneCall(s: State, pkt: seq<octet>, offset: int, h: Header, field: seq<octet>, payload: seq<octet>)
    requires Laid(pkt, h, field, payload) && (h.control == 1 || h.control == 3) && payload != []
    requires h.pid in s.streams && h.pid != 0 && s.pmtPid != Some(h.pid)
    ensures CallOf(s, Located(pkt, offset)) == PidCall(h.pid, Call(payload, h.start, s.streams[h.pid], offset))
  {
    HeaderIsRead(pkt, h, field, payload);
    PayloadIsRead(pkt, h, field, payload);
    PcrIsNotLocal(s, pkt, h.pid);
    hide Laid, PayloadStart, WithPcr, LocalOf;
  }

  /** A field that only carries stuffing, or another PID, or no payload, leads to none. */
  lemma NoCallElse(s: State, pkt: seq<octet>, offset: int, h: Header, field: seq<octet>, payload: seq<octet>)
    requires Laid(pkt, h, field, payload)
    requires h.control == 0 || h.control == 2 || payload == [] || h.pid !in s.streams || h.pid == 0
    ensures CallOf(s, Located(pkt, offset)) == NoCall
  {
    HeaderIsRead(pkt, h, field, payload);
    PayloadIsRead(pkt, h, field, payload);
    PcrIsNotLocal(s, pkt, h.pid);
    hide Laid, PayloadStart, WithPcr, LocalOf;
  }

  // ======== the clock ========

  /** An adaptation field with the clock flag and the six bytes of v. */
  predicate ClockAt(field: seq<octet>, v: nat) {
    && v < 300 * BITS33 && |field| >= 7 && field[0] / 16 % 2 == 1
    && forall i: nat :: i < 6 ==> field[1 + i] == PcrByte(v, i)
  }

  /** What recording a clock value does. */
  function Recorded(c: Clocks, v: int): Clocks {
    Clocks(if c.ptsOrigin.Some? then c.ptsOrigin else Some(v), c.previousPts, c.previousByKind,
           if c.firstPcr.Some? then c.firstPcr else Some(v), Some(v))
  }

  lemma ClockIsRead(s: State, pkt: seq<octet>, h: Header, field: seq<octet>, payload: seq<octet>, v: nat)
    requires Laid(pkt, h, field, payload) && h.control >= 2 && ClockAt(field, v) && s.pcrPid == Some(h.pid)
    ensures WithPcr(s, pkt) == s.(clocks := Recorded(s.clocks, v))
  {
    HeaderIsRead(pkt, h, field, payload);
    FieldIsThere(pkt, h, field, payload);
    ClockBytes(pkt, field, v);
    PcrRoundTrip(v);
    hide Laid, DecodePcr, PcrByte;
  }

  lemma ClockBytes(pkt: seq<octet>, field: seq<octet>, v: nat)
    requires |pkt| == TS_SIZE && 5 + |field| <= TS_SIZE && pkt[5..5 + |field|] == field && ClockAt(field, v)
    ensures pkt[5] / 16 % 2 == 1 && |pkt[6..12]| == 6
    ensures forall i: nat :: i < 6 ==> pkt[6..12][i] == PcrByte(v, i)
  {
    hide PcrByte;
    assert pkt[5] == pkt[5..5 + |field|][0];
    forall i: nat | i < 6
      ensures pkt[6..12][i] == field[1 + i]
    {
      assert pkt[6..12][i] == pkt[5..5 + |field|][1 + i];
    }
  }

  /** Without the flag, without room for the clock, or on another PID no clock is read. */
  lemma NoClockElse(s: State, pkt: seq<octet>, h: Header, field: seq<octet>, payload: seq<octet>)
    requires Laid(pkt, h, field, payload)
    requires h.control < 2 || |field| < 7 || field[0] / 16 % 2 == 0 || s.pcrPid != Some(h.pid)
    ensures WithPcr(s, pkt) == s
  {
    HeaderIsRead(pkt, h, field, payload);
    if h.control >= 2 {
      FieldIsThere(pkt, h, field, payload);
      if |field| >= 1 {
        assert pkt[5] == pkt[5..5 + |field|][0];
      }
    }
    hide Laid, ParsePcr;
  }

  // ======== the PES header ========

  /** A PES packet begins here: start code prefix, stream id, seven bytes, header length. */
  predicate PesAt(p: seq<octet>, id: octet, stamped: bool, header: nat) {
    && 9 + header <= |p| && p[0] == 0 && p[1] == 0 && p[2] == 1 && p[3] == id
    && (if stamped then p[7] >= 128 else p[7] < 128) && p[8] as int == header
  }

  /** The five bytes of a time stamp behind the first nine. */
  predicate StampAt(p: seq<octet>, prefix: nat, pts: nat) {
    |p| >= 14 && prefix < 16 && pts < BITS33 && forall i: nat :: i < 5 ==> p[9 + i] == PtsByte(prefix, pts, i)
  }

  /** A stamped start opens an entry with its time stamp and all bytes behind the header. */
  lemma StampedStart(p: seq<octet>, kind: Kind, offset: int, id: octet, header: nat, prefix: nat, pts: nat)
    requires PesAt(p, id, true, header) && StampAt(p, prefix, pts)
    ensures StartPes(p, kind, offset) == Some(Pes(kind, |p| - 9 - header, Some(pts), id, offset))
  {
    PtsIsRead(p, prefix, pts);
    assert p[0..3] == [0, 0, 1];
    hide DecodePts, PtsByte;
  }

  lemma PtsIsRead(p: seq<octet>, prefix: nat, pts: nat)
    requires StampAt(p, prefix, pts)
    ensures DecodePts(p[9], p[10], p[11], p[12], p[13]) == pts
  {
    PtsRoundTrip(prefix, pts);
    hide DecodePts, PtsByte;
    assert p[9] == PtsByte(prefix, pts, 0) && p[10] == PtsByte(prefix, pts, 1) && p[11] == PtsByte(prefix, pts, 2);
    assert p[12] == PtsByte(prefix, pts, 3) && p[13] == PtsByte(prefix, pts, 4);
  }

  lemma UnstampedStart(p: seq<octet>, kind: Kind, offset: int, id: octet, header: nat)
    requires PesAt(p, id, false, header)
    ensures StartPes(p, kind, offset) == Some(Pes(kind, |p| - 9 - header, None, id, offset))
  {
    assert p[0..3] == [0, 0, 1];
  }

  /** Everything else opens none. */
  lemma NoStartElse(p: seq<octet>, kind: Kind, offset: int)
    requires |p| < 9 || p[0] != 0 || p[1] != 0 || p[2] != 1 || (p[7] >= 128 && |p| < 14) || 9 + p[8] as int > |p|
    ensures StartPes(p, kind, offset) == None
  {
    if |p| >= 9 {
      assert p[0..3][0] == p[0] && p[0..3][1] == p[1] && p[0..3][2] == p[2];
    }
  }

  /** The stream types of section 2.4.4.9 that are printed as video and as audio. */
  lemma KnownTypes(t: octet)
    ensures KindOf(t) == Video <==> t == 1 || t == 2 || t == 16 || t == 27 || t == 36 || t == 37
    ensures KindOf(t) == Audio <==>
              t == 3 || t == 4 || t == 15 || t == 17 || t == 129 || t == 132 || t == 135
  {
  }

  /** A closed entry is printed if it is stamped video or audio: with its size and its time
      stamp, which for audio is put 20 ms, 1800 ticks of 90 kHz, later. */
  lemma RowOfEntry(s: State, pid: int)
    requires pid in s.pes
    ensures var p, e := s.pes[pid], FinishPes(s, pid);
            && pid !in e.pes
            && (p.pts.Some? && p.kind == Video ==> e.rows == s.rows + [Row(pid, Video, p.size, p.pts.value)])
            && (p.pts.Some? && p.kind == Audio ==> e.rows == s.rows + [Row(pid, Audio, p.size, p.pts.value + 1800)])
            && (p.pts.None? || p.kind == Other ==> e.rows == s.rows)
  {
  }

  /** From packet to row: a stamped start packet of a stream, closed by the next start. */
  lemma FrameOfTwoStarts(s: State, a: Located, b: Located, h: Header, field: seq<octet>, payload: seq<octet>,
                         g: Header, field': seq<octet>, payload': seq<octet>,
                         id: octet, header: nat, prefix: nat, pts: nat)
    requires Starts(a.pkt, h, field, payload)
    requires Starts(b.pkt, g, field', payload')
    requires g.pid == h.pid && h.pid in s.streams && h.pid !in s.pes && h.pid != 0 && s.pmtPid != Some(h.pid)
    requires PesAt(payload, id, true, header) && StampAt(payload, prefix, pts)
    ensures var e := Packet(Packet(s, a.pkt, a.offset), b.pkt, b.offset); var size := |payload| - 9 - header;
            e.rows == match s.streams[h.pid]
                      case Video => s.rows + [Row(h.pid, Video, size, pts)]
                      case Audio => s.rows + [Row(h.pid, Audio, size, pts + 1800)]
                      case Other => s.rows
  {
    hide *;
    var size := |payload| - 9 - header;
    var s1 := StampedOpens(s, a, h, field, payload, id, header, prefix, pts);
    ClosesWith(s1, b, g, field', payload', Pes(s.streams[h.pid], size, Some(pts), id, a.offset));
  }

  lemma StampedOpens(s: State, a: Located, h: Header, field: seq<octet>, payload: seq<octet>,
                     id: octet, header: nat, prefix: nat, pts: nat) returns (e: State)
    requires Starts(a.pkt, h, field, payload)
    requires h.pid in s.streams && h.pid !in s.pes && h.pid != 0 && s.pmtPid != Some(h.pid)
    requires PesAt(payload, id, true, header) && StampAt(payload, prefix, pts)
    ensures e == Packet(s, a.pkt, a.offset)
    ensures e.rows == s.rows && e.streams == s.streams && e.pmtPid == s.pmtPid && h.pid in e.pes
    ensures e.pes[h.pid] == Pes(s.streams[h.pid], |payload| - 9 - header, Some(pts), id, a.offset)
  {
    e := Packet(s, a.pkt, a.offset);
    hide *;
    StampedStart(payload, s.streams[h.pid], a.offset, id, header, prefix, pts);
    StartOpens(s, a, h, field, payload);
  }

  lemma ClosesWith(s: State, b: Located, h: Header, field: seq<octet>, payload: seq<octet>, p: Pes)
    requires Starts(b.pkt, h, field, payload) && p.pts.Some?
    requires h.pid in s.streams && h.pid in s.pes && s.pes[h.pid] == p && h.pid != 0 && s.pmtPid != Some(h.pid)
    ensures Packet(s, b.pkt, b.offset).rows ==
              match p.kind
              case Video => s.rows + [Row(h.pid, Video, p.size, p.pts.value)]
              case Audio => s.rows + [Row(h.pid, Audio, p.size, p.pts.value + 1800)]
              case Other => s.rows
  {
    hide *;
    StartCloses(s, b, h, field, payload);
    RowOfEntry(s, h.pid);
  }

  /** A start packet with payload. */
  predicate Starts(pkt: seq<octet>, h: Header, field: seq<octet>, payload: seq<octet>) {
    Laid(pkt, h, field, payload) && h.start && (h.control == 1 || h.control == 3) && payload != []
  }

  lemma StartOpens(s: State, a: Located, h: Header, field: seq<octet>, payload: seq<octet>)
    requires Starts(a.pkt, h, field, payload)
    requires h.pid in s.streams && h.pid !in s.pes && h.pid != 0 && s.pmtPid != Some(h.pid)
    requires StartPes(payload, s.streams[h.pid], a.offset).Some?
    ensures var e := Packet(s, a.pkt, a.offset);
            && e.rows == s.rows && e.streams == s.streams && e.pmtPid == s.pmtPid
            && h.pid in e.pes && e.pes[h.pid] == StartPes(payload, s.streams[h.pid], a.offset).value
  {
    HeaderIsRead(a.pkt, h, field, payload);
    PayloadIsRead(a.pkt, h, field, payload);
    WithPcrKeeps(s, a.pkt);
    hide Laid, PayloadStart, WithPcr, StartPes;
  }

  lemma StartCloses(s: State, b: Located, h: Header, field: seq<octet>, payload: seq<octet>)
    requires Starts(b.pkt, h, field, payload)
    requires h.pid in s.streams && h.pid in s.pes && h.pid != 0 && s.pmtPid != Some(h.pid)
    ensures Packet(s, b.pkt, b.offset).rows == FinishPes(s, h.pid).rows
  {
    HeaderIsRead(b.pkt, h, field, payload);
    PayloadIsRead(b.pkt, h, field, payload);
    WithPcrKeeps(s, b.pkt);
    hide Laid, PayloadStart, WithPcr, StartPes;
  }

  lemma WithPcrKeeps(s: State, pkt: seq<octet>)
    requires |pkt| == TS_SIZE
    ensures var e := WithPcr(s, pkt);
            e.rows == s.rows && e.streams == s.streams && e.pmtPid == s.pmtPid && e.pes == s.pes
  {
  }

  // ======== the other programs ========

  /** The continuity scanner's view: the mark is the top bit of the first field byte. */
  lemma InfoIsRead(pkt: seq<octet>, h: Header, field: seq<octet>, payload: seq<octet>)
    requires Laid(pkt, h, field, payload)
    ensures C.PacketInfo(pkt) ==
              C.Info(h.pid, h.control, h.counter, h.control >= 2 && field != [] && field[0] >= 128)
  {
    HeaderIsRead(pkt, h, field, payload);
    if h.control >= 2 {
      FieldIsThere(pkt, h, field, payload);
      if field != [] {
        assert pkt[5] == pkt[5..5 + |field|][0];
      }
    }
    hide Laid;
  }

  /** Counted are the packets with payload, those of the null PID apart. */
  lemma CountedIs(pkt: seq<octet>, h: Header, field: seq<octet>, payload: seq<octet>)
    requires Laid(pkt, h, field, payload)
    ensures C.Counted(C.PacketInfo(pkt)) <==> h.control % 2 == 1 && h.pid != 8191
  {
    InfoIsRead(pkt, h, field, payload);
    hide Laid;
  }

  /** The extractor writes the payload behind the field; without a field it writes the
      whole payload, or all but its first fourteen bytes where a unit starts. */
  lemma ExtractedIs(pkt: seq<octet>, h: Header, field: seq<octet>, payload: seq<octet>)
    requires Laid(pkt, h, field, payload)
    ensures E.HeadOf(pkt) == E.Head(h.start, h.pid, h.control, h.counter)
    ensures E.Payload(pkt) == if h.control == 3 then payload
                              else if h.control == 1 && h.start then payload[14..]
                              else if h.control == 1 then payload else []
  {
    HeaderIsRead(pkt, h, field, payload);
    if h.control == 3 {
      FieldIsThere(pkt, h, field, payload);
    } else if h.control == 1 {
      assert pkt[4 + 14..] == pkt[4..][14..];
    }
    hide Laid;
  }
}
