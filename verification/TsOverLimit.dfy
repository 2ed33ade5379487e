/** A file of five packets that makes the analyzer print more rows than its frame limit:
    the scan stops at the limit, the closing call does not. */
module TsOverLimit {
  import opened Basics
  import opened TsPacket
  import opened TsTimestamps
  import opened TsTables
  import opened TsAnalyzer
  import opened TsPes

  /** A packet with its leading bytes given, filled up with stuffing. */
  function Padded(head: seq<octet>): (p: seq<octet>)
    requires |head| <= TS_SIZE
    ensures |p| == TS_SIZE && forall i :: 0 <= i < |head| ==> p[i] == head[i]
  {
    head + seq(TS_SIZE - |head|, _ => 0xFF)
  }

  /** Program 1 has its map on PID 256. */
  function PatPacket(): (p: seq<octet>)
    ensures |p| == TS_SIZE && p[0] == SYNC
  {
    Padded([0x47, 0x40, 0, 0x10, 0, 0, 0xB0, 13, 0, 1, 0xC1, 0, 0, 0, 1, 0xE1, 0])
  }

  /** H.264 video on PID 257 and AAC audio on PID 258, no clock. */
  function PmtPacket(): (p: seq<octet>)
    ensures |p| == TS_SIZE && p[0] == SYNC
  {
    Padded([0x47, 0x41, 0, 0x10, 0, 2, 0xB0, 23, 0, 1, 0xC1, 0, 0, 0xFF, 0xFF, 0xF0, 0,
            0x1B, 0xE1, 1, 0xF0, 0, 0x0F, 0xE1, 2, 0xF0, 0])
  }

  /** The start of a stamped PES packet on PID 257 or 258. */
  function PesPacket(pid: int): (p: seq<octet>)
    requires pid == 257 || pid == 258
    ensures |p| == TS_SIZE && p[0] == SYNC
  {
    Padded([0x47, 0x41, pid - 256, 0x10, 0, 0, 1, 0xE0, 0, 0, 0x80, 0x80, 5, 0x21, 0, 1, 0, 1])
  }

  function File(): (d: seq<octet>)
    ensures |d| == 5 * TS_SIZE
  {
    PatPacket() + PmtPacket() + PesPacket(257) + PesPacket(258) + PesPacket(257)
  }

  // -------- what each packet does --------

  lemma PayloadOnly(s: State, pkt: seq<octet>, offset: int)
    requires |pkt| == TS_SIZE && pkt[0] == SYNC && pkt[3] == 0x10
    ensures Packet(s, pkt, offset) == Dispatched(s, PidOf(pkt), pkt[4..], PusiOf(pkt), offset)
  {
  }

  lemma PatPayload()
    ensures var pkt := PatPacket();
            pkt[0] == SYNC && PidOf(pkt) == 0 && PusiOf(pkt) && pkt[3] == 0x10 &&
            CarriesPat(pkt[4..], [Program(1, 256)])
  {
    var p := PatPacket()[4..];
    assert p[0] == 0 && p[1] == 0 && p[2] == 0xB0 && p[3] == 13;
    assert p[9] == 0 && p[10] == 1 && p[11] == 0xE1 && p[12] == 0;
    hide PatPacket;
    assert [Program(1, 256)][1..] == [];
  }

  lemma PatRead(s: State, offset: int)
    ensures Packet(s, PatPacket(), offset) == s.(pmtPid := Some(256))
  {
    PatPayload();
    hide PatPacket, CarriesPat;
    PayloadOnly(s, PatPacket(), offset);
    hide Packet;
    PatIsRead(PatPacket()[4..], [Program(1, 256)]);
    hide PatResult;
  }

  const STREAMS: seq<Stream> := [Stream(0x1B, 257, 0), Stream(0x0F, 258, 0)]

  lemma StreamsCarried(p: seq<octet>)
    requires |p| >= 23 && p[13] == 0x1B && p[14] == 0xE1 && p[15] == 1 && p[16] == 0xF0 && p[17] == 0
    requires p[18] == 0x0F && p[19] == 0xE1 && p[20] == 2 && p[21] == 0xF0 && p[22] == 0
    ensures StreamsAt(p, 13, STREAMS) && StreamsSize(STREAMS) == 10
    ensures EntriesOf(STREAMS) == [Entry(0x1B, 257), Entry(0x0F, 258)]
  {
    var audio := Stream(0x0F, 258, 0);
    assert STREAMS[1..] == [audio] && [audio][1..] == [];
    assert StreamsSize([audio]) == 5 && EntriesOf([audio]) == [Entry(0x0F, 258)];
    assert StreamsAt(p, 23, []);
    assert StreamsAt(p, 18, [audio]);
  }

  lemma PmtPayload()
    ensures var pkt := PmtPacket();
            pkt[0] == SYNC && PidOf(pkt) == 256 && PusiOf(pkt) && pkt[3] == 0x10 &&
            CarriesPmt(pkt[4..], 8191, 0, STREAMS) && EntriesOf(STREAMS) == [Entry(0x1B, 257), Entry(0x0F, 258)]
  {
    PmtBytes();
    StreamBytes();
    hide PmtPacket;
    StreamsCarried(PmtPacket()[4..]);
    hide StreamsAt, StreamsSize, EntriesOf;
  }

  lemma PmtBytes()
    ensures var p := PmtPacket();
            && p[0] == SYNC && p[1] == 0x41 && p[2] == 0 && p[3] == 0x10
            && p[4] == 0 && p[5] == 2 && p[6] == 0xB0 && p[7] == 23
            && p[13] == 0xFF && p[14] == 0xFF && p[15] == 0xF0 && p[16] == 0
  {
  }

  lemma StreamBytes()
    ensures var p := PmtPacket();
            && p[17] == 0x1B && p[18] == 0xE1 && p[19] == 1 && p[20] == 0xF0 && p[21] == 0
            && p[22] == 0x0F && p[23] == 0xE1 && p[24] == 2 && p[25] == 0xF0 && p[26] == 0
  {
  }

  lemma TwoStreams()
    ensures AddStreams(map[], [Entry(0x1B, 257), Entry(0x0F, 258)]) == map[257 := Video, 258 := Audio]
  {
    var es := [Entry(0x1B, 257), Entry(0x0F, 258)];
    assert es[..1] == [Entry(0x1B, 257)] && es[..1][..0] == [];
    assert AddStreams(map[], es[..1]) == map[257 := Video];
  }

  lemma PmtRead(s: State, offset: int)
    requires s.pmtPid == Some(256) && s.streams == map[]
    ensures Packet(s, PmtPacket(), offset) == s.(pcrPid := Some(8191), streams := map[257 := Video, 258 := Audio])
  {
    PmtPayload();
    TwoStreams();
    hide PmtPacket, CarriesPmt, EntriesOf, AddStreams;
    PayloadOnly(s, PmtPacket(), offset);
    hide Packet;
    PmtIsRead(PmtPacket()[4..], 8191, 0, STREAMS);
    hide PmtResult;
  }

  /** The unit a PES packet of the file opens: 170 bytes, stamped 0. */
  function UnitOf(pid: int, offset: int): Pes {
    Pes(if pid == 257 then Video else Audio, 170, Some(0), 0xE0, offset)
  }

  lemma PesHeaderBytes(pid: int)
    requires pid == 257 || pid == 258
    ensures var p := PesPacket(pid); p[0] == SYNC && p[1] == 0x41 && p[2] == pid - 256 && p[3] == 0x10
  {
  }

  lemma PesStampBytes(pid: int)
    requires pid == 257 || pid == 258
    ensures var p := PesPacket(pid); p[13] == 0x21 && p[14] == 0 && p[15] == 1 && p[16] == 0 && p[17] == 1
  {
  }

  lemma StampZero(b0: octet, b1: octet, b2: octet, b3: octet, b4: octet)
    requires b0 == 0x21 && b1 == 0 && b2 == 1 && b3 == 0 && b4 == 1
    ensures DecodePts(b0, b1, b2, b3, b4) == 0
  {
  }

  lemma Started(p: seq<octet>, kind: Kind, offset: int)
    requires |p| == 184 && p[0] == 0 && p[1] == 0 && p[2] == 1 && p[3] == 0xE0 && p[7] == 0x80 && p[8] == 5
    requires p[9] == 0x21 && p[10] == 0 && p[11] == 1 && p[12] == 0 && p[13] == 1
    ensures StartPes(p, kind, offset) == Some(Pes(kind, 170, Some(0), 0xE0, offset))
  {
    hide DecodePts;
    StampZero(p[9], p[10], p[11], p[12], p[13]);
    assert p[0..3] == [0, 0, 1];
  }

  lemma PesHeader(pid: int)
    requires pid == 257 || pid == 258
    ensures var pkt := PesPacket(pid); pkt[0] == SYNC && PidOf(pkt) == pid && PusiOf(pkt) && pkt[3] == 0x10
  {
    PesHeaderBytes(pid);
    hide PesPacket;
  }

  lemma PesStart(pid: int, kind: Kind, offset: int)
    requires pid == 257 || pid == 258
    ensures StartPes(PesPacket(pid)[4..], kind, offset) == Some(Pes(kind, 170, Some(0), 0xE0, offset))
  {
    PesStampBytes(pid);
    hide PesPacket, StartPes;
    Started(PesPacket(pid)[4..], kind, offset);
  }

  lemma PesRead(s: State, pid: int, offset: int)
    requires s.pmtPid == Some(256) && s.streams == map[257 := Video, 258 := Audio] && (pid == 257 || pid == 258)
    ensures var f := FinishPes(s, pid);
            Packet(s, PesPacket(pid), offset) == f.(pes := f.pes[pid := UnitOf(pid, offset)])
  {
    PesHeader(pid);
    PesStart(pid, s.streams[pid], offset);
    PayloadOnly(s, PesPacket(pid), offset);
    FinishKeepsStreams(s, pid);
    hide Packet, PesPacket, FinishPes, StartPes;
  }

  // -------- the whole file --------

  function PacketAt(i: nat): (p: seq<octet>)
    requires i < 5
    ensures |p| == TS_SIZE && p[0] == SYNC
  {
    match i
    case 0 => PatPacket()
    case 1 => PmtPacket()
    case 3 => PesPacket(258)
    case _ => PesPacket(257)
  }

  lemma Position(i: nat)
    requires i < 5
    ensures File()[i * TS_SIZE..(i + 1) * TS_SIZE] == PacketAt(i)
  {
    hide PatPacket, PmtPacket, PesPacket;
  }

  lemma SyncAt(i: nat)
    requires i < 5
    ensures File()[i * TS_SIZE] == SYNC
  {
    Position(i);
    hide PacketAt, File;
    assert File()[i * TS_SIZE] == File()[i * TS_SIZE..(i + 1) * TS_SIZE][0];
  }

  lemma FileAccepts(i: nat)
    requires i < 5
    ensures Accepts(File(), i * TS_SIZE)
  {
    hide File;
    SyncAt(i);
    if i < 4 {
      SyncAt(i + 1);
    }
  }

  /** One packet of a scan with limit 1. */
  lemma ScanOne(s: State, i: nat)
    requires i < 5
    ensures var e := Packet(s, PacketAt(i), i * TS_SIZE);
            ScanAll(s, File(), i * TS_SIZE, 1) ==
              if |e.rows| >= 1 then e else ScanAll(e, File(), (i + 1) * TS_SIZE, 1)
  {
    FileAccepts(i);
    Position(i);
    hide File, Packet, PacketAt, Accepts, ScanAll;
    ScanAllStep(s, File(), i * TS_SIZE, 1);
  }

  /** The state when the limit is reached: one row printed, two units open. */
  function AtLimit(): State {
    var u := UnitOf(257, 2 * TS_SIZE);
    FinishPes(EMPTY.(pmtPid := Some(256), pcrPid := Some(8191), streams := map[257 := Video, 258 := Audio],
                     pes := map[257 := u, 258 := UnitOf(258, 3 * TS_SIZE)]), 257).
      (pes := map[257 := UnitOf(257, 4 * TS_SIZE), 258 := UnitOf(258, 3 * TS_SIZE)])
  }

  /** The state once the tables are read. */
  function WithTables(): State {
    EMPTY.(pmtPid := Some(256), pcrPid := Some(8191), streams := map[257 := Video, 258 := Audio])
  }

  lemma TablesScanned()
    ensures ScanAll(EMPTY, File(), 0, 1) == ScanAll(WithTables(), File(), 2 * TS_SIZE, 1)
  {
    var s1 := EMPTY.(pmtPid := Some(256));
    hide PatPacket, PmtPacket, PesPacket, Packet, File, ScanAll;
    ScanOne(EMPTY, 0);
    PatRead(EMPTY, 0);
    ScanOne(s1, 1);
    PmtRead(s1, TS_SIZE);
  }

  lemma ScanReachesLimit()
    ensures ScanAll(EMPTY, File(), 0, 1) == AtLimit() && |AtLimit().rows| == 1
  {
    var s2 := WithTables();
    var s3 := s2.(pes := map[257 := UnitOf(257, 2 * TS_SIZE)]);
    var s4 := s3.(pes := s3.pes[258 := UnitOf(258, 3 * TS_SIZE)]);
    hide PatPacket, PmtPacket, PesPacket, Packet, File, ScanAll;
    TablesScanned();
    ScanOne(s2, 2);
    PesRead(s2, 257, 2 * TS_SIZE);
    ScanOne(s3, 3);
    PesRead(s3, 258, 3 * TS_SIZE);
    ScanOne(s4, 4);
    PesRead(s4, 257, 4 * TS_SIZE);
  }

  /** With a limit of one row the scan of the file ends with one row, as it should, but two
      units are open then, and the program prints three rows in whatever order it finishes. */
  lemma FinishIgnoresLimit(order: seq<int>)
    requires Enumerates(order, {257, 258})
    ensures ScanAll(EMPTY, File(), 0, 1).pes.Keys == {257, 258}
    ensures |ScanAll(EMPTY, File(), 0, 1).rows| == 1
    ensures |FinishAll(ScanAll(EMPTY, File(), 0, 1), order).rows| == 3
  {
    ScanReachesLimit();
    hide ScanAll, FinishAll, File;
    FinishAllCounts(AtLimit(), order);
    var s, both := AtLimit(), {257, 258};
    assert s.pes.Keys == both;
    assert PidsIn(order) == both;
    assert (set pid | pid in both && Printable(s.pes[pid])) == both && |both| == 2;
  }
}
