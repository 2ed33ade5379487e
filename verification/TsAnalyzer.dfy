/** The PTS/PCR analyzer: tables, per-PID PES assembly, clocks and the printed rows, as a
    step function on its state and as the object that changes in place. */
module TsAnalyzer {
  import opened Basics
  import opened TsPacket
  import opened TsTimestamps
  import opened TsTables

  datatype Kind = Video | Audio | Other

  /** The stream types the analyzer knows. */
  function KindOf(streamType: int): Kind {
    if streamType in {0x01, 0x02, 0x10, 0x1B, 0x24, 0x25} then Video
    else if streamType in {0x03, 0x04, 0x0F, 0x11, 0x81, 0x87, 0x84} then Audio
    else Other
  }

  datatype Pes = Pes(kind: Kind, size: int, pts: Option<int>, streamId: int, offset: int)

  /** A printed frame: its PID, kind, size and compensated PTS. */
  datatype Row = Row(pid: int, kind: Kind, size: int, pts: int)

  datatype Clocks = Clocks(ptsOrigin: Option<int>, previousPts: Option<int>, previousByKind: map<Kind, int>,
                           firstPcr: Option<int>, previousPcr: Option<int>)

  datatype State = State(pmtPid: Option<int>, pcrPid: Option<int>, streams: map<int, Kind>, pes: map<int, Pes>,
                         rows: seq<Row>, clocks: Clocks)

  const EMPTY := State(None, None, map[], map[], [], Clocks(None, None, map[], None, None))

  predicate Printable(p: Pes) {
    p.pts.Some? && !p.kind.Other?
  }

  /** The encoder stamps audio one 20 ms frame early; the analyzer compensates. */
  function Compensated(p: Pes): int
    requires p.pts.Some?
  {
    p.pts.value + if p.kind.Audio? then 20 * 90 else 0
  }

  function RowOf(pid: int, p: Pes): Row
    requires p.pts.Some?
  {
    Row(pid, p.kind, p.size, Compensated(p))
  }

  /** finish_pes: close the entry of a PID and print it if it has a time stamp. */
  function FinishPes(s: State, pid: int): State {
    if pid !in s.pes then s
    else
      var p := s.pes[pid];
      var s1 := s.(pes := s.pes - {pid});
      if !Printable(p) then s1
      else
        var pts := Compensated(p);
        s1.(rows := s.rows + [RowOf(pid, p)],
            clocks := s.clocks.(ptsOrigin := if s.clocks.ptsOrigin.None? then Some(pts * 300) else s.clocks.ptsOrigin,
                                previousPts := Some(pts), previousByKind := s.clocks.previousByKind[p.kind := pts]))
  }

  /** The entry a payload unit start opens, if its header is complete. */
  function StartPes(payload: seq<octet>, kind: Kind, offset: int): Option<Pes> {
    if |payload| < 9 || payload[0..3] != [0, 0, 1] then None
    else
      var stamped := payload[7] / 128 % 2 == 1;
      if stamped && |payload| < 14 then None
      else
        var headerSize := 9 + payload[8] as int;
        if headerSize > |payload| then None
        else Some(Pes(kind, |payload| - headerSize,
                      if stamped then Some(DecodePts(payload[9], payload[10], payload[11], payload[12], payload[13]))
                      else None,
                      payload[3], offset))
  }

  function ParsePes(s: State, pid: int, payload: seq<octet>, pusi: bool, offset: int): State
    requires pid in s.streams
  {
    if pusi then
      var s1 := FinishPes(s, pid);
      var p := StartPes(payload, s.streams[pid], offset);
      if p.None? then s1 else s1.(pes := s1.pes[pid := p.value])
    else if pid in s.pes then s.(pes := s.pes[pid := s.pes[pid].(size := s.pes[pid].size + |payload|)])
    else s
  }

  function ApplyPat(s: State, payload: seq<octet>, pusi: bool): State {
    var r := PatResult(payload, pusi);
    if r.None? then s else s.(pmtPid := r)
  }

  function AddStreams(streams: map<int, Kind>, es: seq<Entry>): map<int, Kind> {
    if es == [] then streams
    else AddStreams(streams, es[..|es| - 1])[es[|es| - 1].pid := KindOf(es[|es| - 1].streamType)]
  }

  function ApplyPmt(s: State, payload: seq<octet>, pusi: bool): State {
    var r := PmtResult(payload, pusi);
    if r.None? then s else s.(pcrPid := Some(r.value.pcrPid), streams := AddStreams(s.streams, r.value.entries))
  }

  function ParsePcr(s: State, data: seq<octet>): State
    requires |data| == 6
  {
    var pcr := DecodePcr(data[0], data[1], data[2], data[3], data[4], data[5]);
    s.(clocks := s.clocks.(firstPcr := if s.clocks.firstPcr.None? then Some(pcr) else s.clocks.firstPcr,
                           ptsOrigin := if s.clocks.ptsOrigin.None? then Some(pcr) else s.clocks.ptsOrigin,
                           previousPcr := Some(pcr)))
  }

  /** Where the payload begins; the packet size if there is none. */
  function PayloadStart(pkt: seq<octet>): (pos: nat)
    requires |pkt| == TS_SIZE
    ensures 4 <= pos <= TS_SIZE
  {
    var adaptation := AdaptationOf(pkt);
    if adaptation == 0 || adaptation == 2 then TS_SIZE
    else if adaptation == 1 then 4
    else if 5 + pkt[4] as int < TS_SIZE then 5 + pkt[4] as int else TS_SIZE
  }

  function WithPcr(s: State, pkt: seq<octet>): State
    requires |pkt| == TS_SIZE
  {
    var adaptation := AdaptationOf(pkt);
    if (adaptation == 2 || adaptation == 3) && pkt[4] >= 7 && s.pcrPid == Some(PidOf(pkt)) && pkt[5] / 16 % 2 == 1
    then ParsePcr(s, pkt[6..12]) else s
  }

  /** A payload goes to the parser its PID stands for. */
  function Dispatched(s: State, pid: int, payload: seq<octet>, pusi: bool, offset: int): State {
    if pid == 0 then ApplyPat(s, payload, pusi)
    else if s.pmtPid == Some(pid) then ApplyPmt(s, payload, pusi)
    else if pid in s.streams then ParsePes(s, pid, payload, pusi, offset)
    else s
  }

  /** One 188-byte packet. */
  function Packet(s: State, pkt: seq<octet>, offset: int): State
    requires |pkt| == TS_SIZE
  {
    if pkt[0] != SYNC then s
    else
      var s1 := WithPcr(s, pkt);
      var pos := PayloadStart(pkt);
      if pos == TS_SIZE then s1 else Dispatched(s1, PidOf(pkt), pkt[pos..], PusiOf(pkt), offset)
  }

  // ======== what every packet keeps ========

  /** PIDs have thirteen bits and PES entries belong to streams of the program map. */
  predicate Good(s: State) {
    && (s.pmtPid.Some? ==> 0 <= s.pmtPid.value < 8192)
    && (s.pcrPid.Some? ==> 0 <= s.pcrPid.value < 8192)
    && (forall pid :: pid in s.streams ==> 0 <= pid < 8192)
    && s.pes.Keys <= s.streams.Keys
  }

  /** The last entry of a program map for a PID decides its kind; other PIDs keep theirs. */
  lemma {:induction false} LastEntryDecides(streams: map<int, Kind>, es: seq<Entry>, pid: int, k: int)
    requires -1 <= k < |es| && (k >= 0 ==> es[k].pid == pid) && forall i :: k < i < |es| ==> es[i].pid != pid
    ensures var m := AddStreams(streams, es);
            if k >= 0 then pid in m && m[pid] == KindOf(es[k].streamType)
            else (pid in m <==> pid in streams) && (pid in m ==> m[pid] == streams[pid])
  {
    if es != [] && k < |es| - 1 {
      LastEntryDecides(streams, es[..|es| - 1], pid, k);
    }
    hide KindOf;
  }

  lemma {:induction false} AddStreamsKeys(streams: map<int, Kind>, es: seq<Entry>)
    requires forall pid :: pid in streams ==> 0 <= pid < 8192
    requires forall e :: e in es ==> 0 <= e.pid < 8192
    ensures streams.Keys <= AddStreams(streams, es).Keys
    ensures forall pid :: pid in AddStreams(streams, es) ==> 0 <= pid < 8192
  {
    if es != [] {
      var n := |es| - 1;
      assert forall e :: e in es[..n] ==> e in es;
      AddStreamsKeys(streams, es[..n]);
      assert es[n] in es;
    }
  }

  lemma TablesInRange(payload: seq<octet>, pusi: bool)
    ensures PatResult(payload, pusi).Some? ==> 0 <= PatResult(payload, pusi).value < 8192
    ensures PmtResult(payload, pusi).Some? ==>
              0 <= PmtResult(payload, pusi).value.pcrPid < 8192 &&
              forall e :: e in PmtResult(payload, pusi).value.entries ==> 0 <= e.pid < 8192
  {
    if pusi && payload != [] {
      var pos := 1 + payload[0] as int;
      if pos + 8 <= |payload| {
        var end := Min(pos + 3 + Length12(payload[pos + 1], payload[pos + 2]) - 4, |payload|);
        PatPidInRange(payload, pos + 8, end);
        if pos + 12 <= |payload| {
          PmtPidsInRange(payload, pos + 12 + Length12(payload[pos + 10], payload[pos + 11]), end);
        }
      }
    }
  }

  lemma ParsePesKeepsGood(s: State, pid: int, payload: seq<octet>, pusi: bool, offset: int)
    requires Good(s) && pid in s.streams
    ensures var e := ParsePes(s, pid, payload, pusi, offset);
            Good(e) && |s.rows| <= |e.rows| <= |s.rows| + 1 && e.streams == s.streams
  {
    hide StartPes;
    var f := FinishPes(s, pid);
    assert f.pes.Keys <= s.pes.Keys && f.streams == s.streams && |s.rows| <= |f.rows| <= |s.rows| + 1;
    hide FinishPes;
  }

  /** Any packet, whatever its bytes, keeps the state good and prints at most one row. */
  lemma PacketKeepsGood(s: State, pkt: seq<octet>, offset: int)
    requires |pkt| == TS_SIZE && Good(s)
    ensures Good(Packet(s, pkt, offset))
    ensures |s.rows| <= |Packet(s, pkt, offset).rows| <= |s.rows| + 1
    ensures s.streams.Keys <= Packet(s, pkt, offset).streams.Keys
  {
    if pkt[0] == SYNC {
      var s1 := WithPcr(s, pkt);
      assert Good(s1) && s1.rows == s.rows && s1.streams == s.streams;
      hide WithPcr, PatResult, PmtResult, AddStreams;
      var pos, pid := PayloadStart(pkt), PidOf(pkt);
      TablesInRange(pkt[pos..], PusiOf(pkt));
      var r := PmtResult(pkt[pos..], PusiOf(pkt));
      if r.Some? {
        AddStreamsKeys(s1.streams, r.value.entries);
      }
      if pid in s1.streams {
        ParsePesKeepsGood(s1, pid, pkt[pos..], PusiOf(pkt), offset);
      }
      hide ParsePes;
    }
  }

  // ======== the object ========

  class TsAnalyzer {
    var pmtPid: Option<int>
    var pcrPid: Option<int>
    var streams: map<int, Kind>
    var pes: map<int, Pes>
    var ptsOrigin: Option<int>
    var previousPts: Option<int>
    var previousPtsByKind: map<Kind, int>
    var firstPcr: Option<int>
    var previousPcr: Option<int>
    const frameLimit: nat
    var frameCount: nat
    var printed: seq<Row>

    ghost predicate Valid()
      reads this
    {
      Good(View()) && frameCount == |printed|
    }

    ghost function View(): State
      reads this
    {
      State(pmtPid, pcrPid, streams, pes, printed,
            Clocks(ptsOrigin, previousPts, previousPtsByKind, firstPcr, previousPcr))
    }

    constructor (frameLimit: nat)
      ensures Valid() && View() == EMPTY && this.frameLimit == frameLimit
    {
      pmtPid, pcrPid, streams, pes := None, None, map[], map[];
      ptsOrigin, previousPts, previousPtsByKind, firstPcr, previousPcr := None, None, map[], None, None;
      this.frameLimit := frameLimit;
      frameCount, printed := 0, [];
    }

    predicate Done()
      reads this
    {
      frameLimit > 0 && frameCount >= frameLimit
    }

    method ClosePes(pid: int)
      modifies this
      ensures View() == FinishPes(old(View()), pid)
      ensures frameCount - old(frameCount) == |printed| - |old(printed)|
    {
      if pid !in pes {
        return;
      }
      var p := pes[pid];
      pes := pes - {pid};
      if p.pts.None? {
        return;
      }
      if p.kind.Other? {
        return;
      }
      var pts := p.pts.value;
      if p.kind.Audio? {
        pts := pts + 20 * 90;
      }
      if ptsOrigin.None? {
        ptsOrigin := Some(pts * 300);
      }
      printed := printed + [Row(pid, p.kind, p.size, pts)];
      frameCount := frameCount + 1;
      previousPts := Some(pts);
      previousPtsByKind := previousPtsByKind[p.kind := pts];
    }

    method HandlePes(pid: int, payload: seq<octet>, pusi: bool, offset: int)
      requires pid in streams
      modifies this
      ensures View() == ParsePes(old(View()), pid, payload, pusi, offset)
      ensures frameCount - old(frameCount) == |printed| - |old(printed)|
    {
      if pusi {
        ClosePes(pid);
        if |payload| < 9 {
          return;
        }
        if payload[0..3] != [0, 0, 1] {
          return;
        }
        var streamId: int := payload[3];
        var headerLength: int := payload[8];
        var pts: Option<int> := None;
        if payload[7] / 128 % 2 == 1 {
          if |payload| < 14 {
            return;
          }
          pts := Some(DecodePts(payload[9], payload[10], payload[11], payload[12], payload[13]));
        }
        var headerSize := 9 + headerLength;
        if headerSize > |payload| {
          return;
        }
        pes := pes[pid := Pes(streams[pid], |payload| - headerSize, pts, streamId, offset)];
        return;
      }
      if pid in pes {
        pes := pes[pid := pes[pid].(size := pes[pid].size + |payload|)];
      }
    }

    method HandlePat(payload: seq<octet>, pusi: bool)
      modifies this`pmtPid
      ensures View() == ApplyPat(old(View()), payload, pusi)
    {
      var r := TsTables.ParsePat(payload, pusi);
      if r.Some? {
        pmtPid := r;
      }
    }

    method HandlePmt(payload: seq<octet>, pusi: bool)
      modifies this`pcrPid, this`streams
      ensures View() == ApplyPmt(old(View()), payload, pusi)
    {
      var r := TsTables.ParsePmt(payload, pusi);
      if r.Some? {
        pcrPid := Some(r.value.pcrPid);
        var es := r.value.entries;
        for k := 0 to |es|
          invariant streams == AddStreams(old(streams), es[..k]) && pcrPid == Some(r.value.pcrPid)
        {
          assert es[..k + 1][..k] == es[..k];
          streams := streams[es[k].pid := KindOf(es[k].streamType)];
        }
        assert es[..|es|] == es;
      }
    }

    method HandlePcr(data: seq<octet>)
      requires |data| == 6
      modifies this`firstPcr, this`ptsOrigin, this`previousPcr
      ensures View() == ParsePcr(old(View()), data)
    {
      var pcr := DecodePcr(data[0], data[1], data[2], data[3], data[4], data[5]);
      if firstPcr.None? {
        firstPcr := Some(pcr);
      }
      if ptsOrigin.None? {
        ptsOrigin := Some(pcr);
      }
      previousPcr := Some(pcr);
    }

    /** The adaptation field: a clock value, if there is one of the right PID. */
    method HandleAdaptation(pkt: seq<octet>, pid: int, adaptation: int)
      requires |pkt| == TS_SIZE && pid == PidOf(pkt) && adaptation == AdaptationOf(pkt) && adaptation >= 2
      modifies this`firstPcr, this`ptsOrigin, this`previousPcr
      ensures View() == WithPcr(old(View()), pkt)
    {
      hide ParsePcr;
      var length: int := pkt[4];
      if length >= 7 && pcrPid == Some(pid) {
        if pkt[5] / 16 % 2 == 1 {
          HandlePcr(pkt[6..12]);
        }
      }
    }

    method Dispatch(pid: int, payload: seq<octet>, pusi: bool, offset: int)
      modifies this
      ensures View() == Dispatched(old(View()), pid, payload, pusi, offset)
      ensures frameCount - old(frameCount) == |printed| - |old(printed)|
    {
      hide ApplyPat, ApplyPmt, ParsePes;
      if pid == 0 {
        HandlePat(payload, pusi);
      } else if pmtPid == Some(pid) {
        HandlePmt(payload, pusi);
      } else if pid in streams {
        HandlePes(pid, payload, pusi, offset);
      }
    }

    method Handle(pkt: seq<octet>, offset: int)
      requires |pkt| == TS_SIZE && Valid()
      modifies this
      ensures View() == Packet(old(View()), pkt, offset) && Valid()
    {
      hide Packet, Good;
      PacketKeepsGood(View(), pkt, offset);
      HandlePacket(pkt, offset);
    }

    method HandlePacket(pkt: seq<octet>, offset: int)
      requires |pkt| == TS_SIZE
      modifies this
      ensures View() == Packet(old(View()), pkt, offset)
      ensures frameCount - old(frameCount) == |printed| - |old(printed)|
    {
      hide WithPcr, Dispatched;
      if pkt[0] as int != SYNC {
        return;
      }
      var b1: int, b2: int := pkt[1], pkt[2];
      var pusi := b1 / 64 % 2 == 1;
      var pid := b1 % 32 * 256 + b2;
      var adaptation := pkt[3] / 16 % 4;
      if adaptation == 0 {
        PlainHeader(View(), pkt);
        return;
      }
      var pos := 4;
      if adaptation == 2 || adaptation == 3 {
        HandleAdaptation(pkt, pid, adaptation);
        pos := pos + 1 + pkt[4] as int;
      } else {
        PlainHeader(View(), pkt);
      }
      if adaptation == 2 || pos >= TS_SIZE {
        return;
      }
      Dispatch(pid, pkt[pos..], pusi, offset);
    }

    /** The closing call of the program: every open entry is finished, in some order. */
    method Finish() returns (ghost order: seq<int>)
      requires Valid()
      modifies this
      ensures Enumerates(order, old(pes).Keys)
      ensures View() == FinishAll(old(View()), order) && Valid() && pes == map[]
      ensures frameCount == old(frameCount) + Open(old(pes), old(pes).Keys)
    {
      hide FinishPes, Good;
      order := [];
      var todo := pes.Keys;
      while todo != {}
        invariant todo == pes.Keys && Valid()
        invariant todo !! (set q | q in order) && Enumerates(order, old(pes).Keys - todo)
        invariant View() == FinishAll(old(View()), order)
        invariant frameCount + Open(pes, pes.Keys) == old(frameCount) + Open(old(pes), old(pes).Keys)
        decreases todo
      {
        var pid := AnyOf(todo);
        FinishKeepsGood(View(), pid);
        OpenLess(View(), pid);
        assert (order + [pid])[..|order|] == order;
        ClosePes(pid);
        todo := todo - {pid};
        order := order + [pid];
      }
    }
  }

  lemma PlainHeader(s: State, pkt: seq<octet>)
    requires |pkt| == TS_SIZE && AdaptationOf(pkt) < 2
    ensures WithPcr(s, pkt) == s
  {
  }

  /** The PIDs of a set, each once, in some order. */
  ghost predicate Enumerates(order: seq<int>, pids: set<int>) {
    && (forall pid :: pid in order <==> pid in pids)
    && (forall i, j :: 0 <= i < j < |order| ==> order[i] != order[j])
  }

  function FinishAll(s: State, order: seq<int>): State {
    if order == [] then s else FinishPes(FinishAll(s, order[..|order| - 1]), order[|order| - 1])
  }

  lemma FinishKeepsGood(s: State, pid: int)
    requires Good(s)
    ensures Good(FinishPes(s, pid))
    ensures pid in s.pes ==> FinishPes(s, pid).pes == s.pes - {pid}
    ensures |FinishPes(s, pid).rows| == |s.rows| + if pid in s.pes && Printable(s.pes[pid]) then 1 else 0
  {
  }

  /** Finishing a set of open entries closes those and prints one row for each to print. */
  lemma {:induction false} FinishAllCounts(s: State, order: seq<int>)
    requires forall i, j :: 0 <= i < j < |order| ==> order[i] != order[j]
    requires forall pid :: pid in order ==> pid in s.pes
    ensures var e := FinishAll(s, order);
            e.pes == s.pes - PidsIn(order) && |e.rows| == |s.rows| + Open(s.pes, PidsIn(order))
  {
    if order == [] {
      OpenWithin(s, PidsIn(order));
      assert PidsIn(order) == {};
    } else {
      var n := |order| - 1;
      FinishAllCounts(s, order[..n]);
      PidsNext(order[..n], order[n]);
      assert order == order[..n] + [order[n]];
      hide FinishAll, FinishPes, Open, PidsIn;
      OpenOneMore(s, PidsIn(order[..n]), order[n]);
    }
  }

  ghost function PidsIn(order: seq<int>): (pids: set<int>)
    ensures forall pid :: pid in pids <==> pid in order
  {
    set pid | pid in order
  }

  lemma PidsNext(order: seq<int>, pid: int)
    ensures PidsIn(order + [pid]) == PidsIn(order) + {pid}
  {
  }

  lemma OpenWithin(s: State, pids: set<int>)
    requires pids <= s.pes.Keys
    ensures Open(s.pes, pids) <= |pids|
  {
    var a := set q | q in pids && Printable(s.pes[q]);
    assert pids == a + (pids - a);
  }

  lemma OpenOneMore(s: State, pids: set<int>, pid: int)
    requires pids <= s.pes.Keys && pid in s.pes && pid !in pids
    ensures Open(s.pes, pids + {pid}) == Open(s.pes, pids) + if Printable(s.pes[pid]) then 1 else 0
  {
    var a := set q | q in pids && Printable(s.pes[q]);
    var b := set q | q in pids + {pid} && Printable(s.pes[q]);
    assert b == if Printable(s.pes[pid]) then a + {pid} else a;
  }

  method AnyOf<T(==)>(s: set<T>) returns (x: T)
    requires s != {}
    ensures x in s
  {
    x :| x in s;
  }

  /** How many of the entries in `pids` will print a row. */
  ghost function Open(pes: map<int, Pes>, pids: set<int>): nat
    requires pids <= pes.Keys
  {
    |set pid | pid in pids && Printable(pes[pid])|
  }

  lemma OpenLess(s: State, pid: int)
    requires pid in s.pes
    ensures var rest := s.pes - {pid};
            Open(s.pes, s.pes.Keys) == Open(rest, rest.Keys) + if Printable(s.pes[pid]) then 1 else 0
  {
    var pes, rest := s.pes, s.pes - {pid};
    var a, b := set q | q in pes.Keys && Printable(pes[q]), set q | q in rest.Keys && Printable(rest[q]);
    if Printable(pes[pid]) {
      assert a == b + {pid};
    } else {
      assert a == b;
    }
  }
}
