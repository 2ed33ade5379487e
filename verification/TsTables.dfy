/** Program tables of a transport stream (ISO/IEC 13818-1, sections 2.4.4.3 and 2.4.4.8):
    what the analyzer's table parsers read, on any bytes and on well-formed sections. */
module TsTables {
  import opened Basics


  function Min(a: int, b: int): int {
    if a < b then a else b
  }

  /** Two bytes as a 13-bit PID, a 12-bit length, a 16-bit number. */
  function Pid(hi: int, lo: int): int { hi % 32 * 256 + lo }
  function Length12(hi: int, lo: int): int { hi % 16 * 256 + lo }
  function Number16(hi: int, lo: int): int { hi * 256 + lo }

  // ======== PAT ========

  /** The PID of the first program that is not number zero. */
  function PatScan(payload: seq<octet>, pos: nat, end: int): Option<int>
    requires end <= |payload|
    decreases end - pos
  {
    if pos + 4 > end then None
    else if Number16(payload[pos], payload[pos + 1]) != 0 then Some(Pid(payload[pos + 2], payload[pos + 3]))
    else PatScan(payload, pos + 4, end)
  }

  function PatResult(payload: seq<octet>, pusi: bool): Option<int> {
    if !pusi || payload == [] then None
    else
      var pos := 1 + payload[0] as int;
      if pos + 8 > |payload| || payload[pos] != 0 then None
      else PatScan(payload, pos + 8, Min(pos + 3 + Length12(payload[pos + 1], payload[pos + 2]) - 4, |payload|))
  }

  method ParsePat(payload: seq<octet>, pusi: bool) returns (pmt: Option<int>)
    ensures pmt == PatResult(payload, pusi)
  {
    if !pusi || |payload| == 0 {
      return None;
    }
    var pointer: int := payload[0];
    var pos := 1 + pointer;
    if pos + 8 > |payload| {
      return None;
    }
    if payload[pos] != 0 {
      return None;
    }
    var sectionLength := Length12(payload[pos + 1], payload[pos + 2]);
    var end := Min(pos + 3 + sectionLength - 4, |payload|);
    pos := pos + 8;
    while pos + 4 <= end
      invariant pos >= 0 && end <= |payload|
      invariant PatScan(payload, pos, end) == PatResult(payload, pusi)
      decreases end - pos
    {
      var program := Number16(payload[pos], payload[pos + 1]);
      var pid := Pid(payload[pos + 2], payload[pos + 3]);
      if program != 0 {
        return Some(pid);
      }
      pos := pos + 4;
    }
    return None;
  }

  lemma {:induction false} PatPidInRange(payload: seq<octet>, pos: nat, end: int)
    requires end <= |payload|
    ensures PatScan(payload, pos, end).Some? ==> 0 <= PatScan(payload, pos, end).value < 8192
    decreases end - pos
  {
    if pos + 4 <= end {
      PatPidInRange(payload, pos + 4, end);
    }
  }

  // ======== PMT ========

  datatype Entry = Entry(streamType: int, pid: int)

  datatype Pmt = Pmt(pcrPid: int, entries: seq<Entry>)

  function PmtScan(payload: seq<octet>, pos: nat, end: int): seq<Entry>
    requires end <= |payload|
    decreases end - pos
  {
    if pos + 5 > end then []
    else
      [Entry(payload[pos], Pid(payload[pos + 1], payload[pos + 2]))] +
      PmtScan(payload, pos + 5 + Length12(payload[pos + 3], payload[pos + 4]), end)
  }

  function PmtResult(payload: seq<octet>, pusi: bool): Option<Pmt> {
    if !pusi || payload == [] then None
    else
      var pos := 1 + payload[0] as int;
      if pos + 12 > |payload| || payload[pos] != 2 then None
      else
        var end := Min(pos + 3 + Length12(payload[pos + 1], payload[pos + 2]) - 4, |payload|);
        Some(Pmt(Pid(payload[pos + 8], payload[pos + 9]),
                 PmtScan(payload, pos + 12 + Length12(payload[pos + 10], payload[pos + 11]), end)))
  }

  method ParsePmt(payload: seq<octet>, pusi: bool) returns (pmt: Option<Pmt>)
    ensures pmt == PmtResult(payload, pusi)
  {
    if !pusi || |payload| == 0 {
      return None;
    }
    var pointer: int := payload[0];
    var pos := 1 + pointer;
    if pos + 12 > |payload| {
      return None;
    }
    if payload[pos] != 2 {
      return None;
    }
    var sectionLength := Length12(payload[pos + 1], payload[pos + 2]);
    var end := Min(pos + 3 + sectionLength - 4, |payload|);
    var pcrPid := Pid(payload[pos + 8], payload[pos + 9]);
    var programInfoLength := Length12(payload[pos + 10], payload[pos + 11]);
    pos := pos + 12 + programInfoLength;
    var entries := [];
    ghost var first := pos;
    assert PmtResult(payload, pusi) == Some(Pmt(pcrPid, PmtScan(payload, first, end)));
    hide PmtScan, PmtResult;
    while pos + 5 <= end
      invariant pos >= 0 && end <= |payload|
      invariant entries + PmtScan(payload, pos, end) == PmtScan(payload, first, end)
      decreases end - pos
    {
      PmtScanStep(payload, pos, end);
      var streamType: int := payload[pos];
      var pid := Pid(payload[pos + 1], payload[pos + 2]);
      var esInfoLength := Length12(payload[pos + 3], payload[pos + 4]);
      entries := entries + [Entry(streamType, pid)];
      pos := pos + 5 + esInfoLength;
    }
    PmtScanStep(payload, pos, end);
    assert entries + [] == entries;
    return Some(Pmt(pcrPid, entries));
  }

  lemma PmtScanStep(payload: seq<octet>, pos: nat, end: int)
    requires end <= |payload|
    ensures pos + 5 > end ==> PmtScan(payload, pos, end) == []
    ensures pos + 5 <= end ==>
              PmtScan(payload, pos, end) ==
                [Entry(payload[pos], Pid(payload[pos + 1], payload[pos + 2]))] +
                PmtScan(payload, pos + 5 + Length12(payload[pos + 3], payload[pos + 4]), end)
    ensures pos + 5 <= end ==> 0 <= Pid(payload[pos + 1], payload[pos + 2]) < 8192
  {
  }

  lemma {:induction false} PmtPidsInRange(payload: seq<octet>, pos: nat, end: int)
    requires end <= |payload|
    ensures forall e :: e in PmtScan(payload, pos, end) ==> 0 <= e.pid < 8192
    decreases end - pos
  {
    if pos + 5 <= end {
      PmtScanStep(payload, pos, end);
      PmtPidsInRange(payload, pos + 5 + Length12(payload[pos + 3], payload[pos + 4]), end);
      hide PmtScan;
    }
  }

  // ======== well-formed sections ========

  type pid13 = x: int | 0 <= x < 8192

  /** Fields as the standard writes them, reserved bits set, at a position of the payload. */
  predicate PidAt(p: seq<octet>, i: nat, pid: pid13) {
    i + 2 <= |p| && p[i] >= 224 && pid == (p[i] as int - 224) * 256 + p[i + 1] as int
  }

  predicate LengthAt(p: seq<octet>, i: nat, n: nat) {
    n < 4096 && i + 2 <= |p| && p[i] >= 176 && n == (p[i] as int - 176) * 256 + p[i + 1] as int
  }

  predicate InfoLengthAt(p: seq<octet>, i: nat, n: nat) {
    n < 4096 && i + 2 <= |p| && p[i] >= 240 && n == (p[i] as int - 240) * 256 + p[i + 1] as int
  }

  predicate NumberAt(p: seq<octet>, i: nat, x: uint16) {
    i + 2 <= |p| && x == p[i] as int * 256 + p[i + 1] as int
  }

  lemma FieldsRead(p: seq<octet>, i: nat, pid: pid13, n: nat, x: uint16)
    ensures PidAt(p, i, pid) ==> Pid(p[i], p[i + 1]) == pid
    ensures LengthAt(p, i, n) || InfoLengthAt(p, i, n) ==> Length12(p[i], p[i + 1]) == n
    ensures NumberAt(p, i, x) ==> Number16(p[i], p[i + 1]) == x
  {
  }

  /** A program in a PAT: its number and the PID of its map. */
  datatype Program = Program(number: uint16, pid: pid13)

  predicate ProgramsAt(p: seq<octet>, i: nat, ps: seq<Program>)
    decreases |ps|
  {
    ps == [] || (NumberAt(p, i, ps[0].number) && PidAt(p, i + 2, ps[0].pid) && ProgramsAt(p, i + 4, ps[1..]))
  }

  /** A payload that carries a whole PAT: pointer field and skipped bytes, table id and
      length, five header bytes, the programs, four CRC bytes, anything behind. */
  predicate CarriesPat(p: seq<octet>, ps: seq<Program>) {
    p != [] &&
    var i := 1 + p[0] as int;
    && i + 12 + 4 * |ps| <= |p| && p[i] == 0 && LengthAt(p, i + 1, 9 + 4 * |ps|)
    && ProgramsAt(p, i + 8, ps)
  }

  function FirstProgram(ps: seq<Program>): Option<int> {
    if ps == [] then None else if ps[0].number != 0 then Some(ps[0].pid) else FirstProgram(ps[1..])
  }

  lemma {:induction false} PatScanReads(p: seq<octet>, i: nat, ps: seq<Program>)
    requires ProgramsAt(p, i, ps) && i + 4 * |ps| <= |p|
    ensures PatScan(p, i, i + 4 * |ps|) == FirstProgram(ps)
    decreases |ps|
  {
    if ps != [] {
      FieldsRead(p, i, 0, 0, ps[0].number);
      FieldsRead(p, i + 2, ps[0].pid, 0, 0);
      PatScanReads(p, i + 4, ps[1..]);
    }
  }

  lemma PatHeaderRead(p: seq<octet>, i: nat, n: nat)
    requires p != [] && i == 1 + p[0] as int && i + 12 + n <= |p| && p[i] == 0 && LengthAt(p, i + 1, 9 + n)
    ensures PatResult(p, true) == PatScan(p, i + 8, i + 8 + n)
  {
    FieldsRead(p, i + 1, 0, 9 + n, 0);
    hide PatScan, LengthAt;
  }

  /** Reading a PAT gives the map PID of its first program that is not number zero. */
  lemma PatIsRead(p: seq<octet>, ps: seq<Program>)
    requires CarriesPat(p, ps)
    ensures PatResult(p, true) == FirstProgram(ps)
  {
    hide PatScan, PatResult, ProgramsAt, LengthAt, FirstProgram;
    var i := 1 + p[0] as int;
    PatHeaderRead(p, i, 4 * |ps|);
    PatScanReads(p, i + 8, ps);
  }

  /** Nothing is read without a payload unit start, from a payload too short for the header
      behind its pointer field, or from another table. */
  lemma NoTableElse(p: seq<octet>, start: bool)
    requires !start || p == [] || |p| < 9 + p[0] as int || p[1 + p[0] as int] != 0
    ensures PatResult(p, start) == None
  {
  }

  lemma NoMapElse(p: seq<octet>, start: bool)
    requires !start || p == [] || |p| < 13 + p[0] as int || p[1 + p[0] as int] != 2
    ensures PmtResult(p, start) == None
  {
  }

  /** An elementary stream in a PMT: type, PID, number of descriptor bytes. */
  datatype Stream = Stream(streamType: octet, pid: pid13, info: nat)

  function StreamsSize(ss: seq<Stream>): nat {
    if ss == [] then 0 else 5 + ss[0].info + StreamsSize(ss[1..])
  }

  predicate StreamsAt(p: seq<octet>, i: nat, ss: seq<Stream>)
    decreases |ss|
  {
    ss == [] || (i < |p| && p[i] == ss[0].streamType && PidAt(p, i + 1, ss[0].pid) && InfoLengthAt(p, i + 3, ss[0].info)
                 && StreamsAt(p, i + 5 + ss[0].info, ss[1..]))
  }

  /** A payload that carries a whole PMT: as a PAT, with the PCR PID and the program
      descriptors in front of the streams. */
  predicate CarriesPmt(p: seq<octet>, pcr: pid13, info: nat, ss: seq<Stream>) {
    p != [] &&
    var i := 1 + p[0] as int;
    && i + 16 + info + StreamsSize(ss) <= |p| && p[i] == 2 && LengthAt(p, i + 1, 13 + info + StreamsSize(ss))
    && PidAt(p, i + 8, pcr) && InfoLengthAt(p, i + 10, info) && StreamsAt(p, i + 12 + info, ss)
  }

  function EntriesOf(ss: seq<Stream>): seq<Entry> {
    if ss == [] then [] else [Entry(ss[0].streamType, ss[0].pid)] + EntriesOf(ss[1..])
  }

  lemma PmtReadsOne(p: seq<octet>, i: nat, end: int, x: Stream, rest: seq<Entry>)
    requires i + 5 <= end <= |p|
    requires p[i] == x.streamType && PidAt(p, i + 1, x.pid) && InfoLengthAt(p, i + 3, x.info)
    requires PmtScan(p, i + 5 + x.info, end) == rest
    ensures PmtScan(p, i, end) == [Entry(x.streamType, x.pid)] + rest
  {
    FieldsRead(p, i + 1, x.pid, 0, 0);
    FieldsRead(p, i + 3, 0, x.info, 0);
  }

  lemma {:induction false} PmtScanReads(p: seq<octet>, i: nat, ss: seq<Stream>)
    requires StreamsAt(p, i, ss) && i + StreamsSize(ss) <= |p|
    ensures PmtScan(p, i, i + StreamsSize(ss)) == EntriesOf(ss)
    decreases |ss|
  {
    hide PmtScan, PidAt, InfoLengthAt;
    if ss == [] {
      PmtScanEnd(p, i);
    } else {
      PmtScanReads(p, i + 5 + ss[0].info, ss[1..]);
      PmtReadsOne(p, i, i + StreamsSize(ss), ss[0], EntriesOf(ss[1..]));
    }
  }

  lemma PmtScanEnd(p: seq<octet>, i: nat)
    requires i <= |p|
    ensures PmtScan(p, i, i) == []
  {
  }

  lemma PmtHeaderRead(p: seq<octet>, i: nat, pcr: pid13, info: nat, n: nat)
    requires p != [] && i == 1 + p[0] as int && i + 16 + info + n <= |p| && p[i] == 2
    requires LengthAt(p, i + 1, 13 + info + n) && PidAt(p, i + 8, pcr) && InfoLengthAt(p, i + 10, info)
    ensures PmtResult(p, true) == Some(Pmt(pcr, PmtScan(p, i + 12 + info, i + 12 + info + n)))
  {
    FieldsRead(p, i + 1, 0, 13 + info + n, 0);
    FieldsRead(p, i + 8, pcr, 0, 0);
    FieldsRead(p, i + 10, 0, info, 0);
    hide PmtScan, LengthAt, PidAt, InfoLengthAt;
  }

  /** Reading a PMT gives its PCR PID and all its streams in order, descriptors skipped. */
  lemma PmtIsRead(p: seq<octet>, pcr: pid13, info: nat, ss: seq<Stream>)
    requires CarriesPmt(p, pcr, info, ss)
    ensures PmtResult(p, true) == Some(Pmt(pcr, EntriesOf(ss)))
  {
    hide PmtScan, PmtResult, StreamsAt, LengthAt, PidAt, InfoLengthAt, StreamsSize, EntriesOf;
    var i := 1 + p[0] as int;
    PmtHeaderRead(p, i, pcr, info, StreamsSize(ss));
    PmtScanReads(p, i + 12 + info, ss);
  }
}
