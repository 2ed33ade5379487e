/** PES assembly on whole runs: what is open for a PID, and what was printed for it, told
    from the payloads that PID carried. */
module TsPes {
  import opened Basics
  import opened TsPacket
  import opened TsTables
  import opened TsAnalyzer

  /** A packet with its file offset, and a payload handed to the PES parser. */
  datatype Located = Located(pkt: seq<octet>, offset: int)
  datatype Call = Call(payload: seq<octet>, pusi: bool, kind: Kind, offset: int)
  datatype PidCall = NoCall | PidCall(pid: int, call: Call)

  predicate Whole(ps: seq<Located>) {
    forall i :: 0 <= i < |ps| ==> |ps[i].pkt| == TS_SIZE
  }

  function RunPackets(s: State, ps: seq<Located>): State
    requires Whole(ps)
  {
    if ps == [] then s else Packet(RunPackets(s, ps[..|ps| - 1]), ps[|ps| - 1].pkt, ps[|ps| - 1].offset)
  }

  /** The PES parser call a packet leads to. */
  function CallOf(s: State, p: Located): PidCall
    requires |p.pkt| == TS_SIZE
  {
    var s1 := WithPcr(s, p.pkt);
    var pid, pos := PidOf(p.pkt), PayloadStart(p.pkt);
    if p.pkt[0] != SYNC || pos == TS_SIZE || pid == 0 || s1.pmtPid == Some(pid) || pid !in s1.streams then NoCall
    else PidCall(pid, Call(p.pkt[pos..], PusiOf(p.pkt), s1.streams[pid], p.offset))
  }

  /** The calls made for one PID over a run. */
  function Calls(s: State, ps: seq<Located>, pid: int): seq<Call>
    requires Whole(ps)
  {
    if ps == [] then [] else
      var n := |ps| - 1;
      var c := CallOf(RunPackets(s, ps[..n]), ps[n]);
      Calls(s, ps[..n], pid) + if c.PidCall? && c.pid == pid then [c.call] else []
  }

  // ======== the view of one PID ========

  datatype Local = Local(open: Option<Pes>, rows: seq<Row>)

  function RowsOf(rows: seq<Row>, pid: int): seq<Row> {
    if rows == [] then [] else
      RowsOf(rows[..|rows| - 1], pid) + if rows[|rows| - 1].pid == pid then [rows[|rows| - 1]] else []
  }

  function LocalOf(s: State, pid: int): Local {
    Local(if pid in s.pes then Some(s.pes[pid]) else None, RowsOf(s.rows, pid))
  }

  function Emitted(open: Option<Pes>, pid: int): seq<Row> {
    if open.Some? && Printable(open.value) then [RowOf(pid, open.value)] else []
  }

  function LocalStep(l: Local, c: Call, pid: int): Local {
    if c.pusi then Local(StartPes(c.payload, c.kind, c.offset), l.rows + Emitted(l.open, pid))
    else if l.open.Some? then l.(open := Some(l.open.value.(size := l.open.value.size + |c.payload|)))
    else l
  }

  lemma RowsOfNext(rows: seq<Row>, r: Row, pid: int)
    ensures RowsOf(rows + [r], pid) == RowsOf(rows, pid) + if r.pid == pid then [r] else []
  {
    assert (rows + [r])[..|rows|] == rows;
  }

  lemma FinishIsLocal(s: State, q: int, pid: int)
    ensures LocalOf(FinishPes(s, q), pid) ==
              if q == pid then Local(None, RowsOf(s.rows, pid) + Emitted(LocalOf(s, pid).open, pid))
              else LocalOf(s, pid)
  {
    if q in s.pes && Printable(s.pes[q]) {
      RowsOfNext(s.rows, RowOf(q, s.pes[q]), pid);
    }
    assert RowsOf(s.rows, pid) + [] == RowsOf(s.rows, pid);
    hide RowsOf;
  }

  /** PIDs do not disturb each other. */
  lemma ParseIsLocal(s: State, q: int, payload: seq<octet>, pusi: bool, offset: int, pid: int)
    requires q in s.streams
    ensures LocalOf(ParsePes(s, q, payload, pusi, offset), pid) ==
              if q == pid then LocalStep(LocalOf(s, pid), Call(payload, pusi, s.streams[q], offset), pid)
              else LocalOf(s, pid)
  {
    FinishIsLocal(s, q, pid);
    hide FinishPes, StartPes, RowsOf;
    assert FinishPes(s, q).streams == s.streams by {
      FinishKeepsStreams(s, q);
    }
  }

  lemma FinishKeepsStreams(s: State, q: int)
    ensures FinishPes(s, q).streams == s.streams
  {
  }

  lemma PcrIsNotLocal(s: State, pkt: seq<octet>, pid: int)
    requires |pkt| == TS_SIZE
    ensures var s1 := WithPcr(s, pkt);
            LocalOf(s1, pid) == LocalOf(s, pid) && s1.streams == s.streams && s1.pmtPid == s.pmtPid
  {
    hide RowsOf;
  }

  lemma PacketIsLocal(s: State, p: Located, pid: int)
    requires |p.pkt| == TS_SIZE
    ensures var c := CallOf(s, p);
            LocalOf(Packet(s, p.pkt, p.offset), pid) ==
              if c.PidCall? && c.pid == pid then LocalStep(LocalOf(s, pid), c.call, pid) else LocalOf(s, pid)
  {
    var s1 := WithPcr(s, p.pkt);
    PcrIsNotLocal(s, p.pkt, pid);
    var q, pos := PidOf(p.pkt), PayloadStart(p.pkt);
    hide WithPcr, LocalStep, RowsOf;
    if q in s1.streams {
      ParseIsLocal(s1, q, p.pkt[pos..], PusiOf(p.pkt), p.offset, pid);
    }
    hide ParsePes, PatResult, PmtResult, AddStreams;
  }

  function LocalRun(cs: seq<Call>, pid: int): Local {
    if cs == [] then Local(None, []) else LocalStep(LocalRun(cs[..|cs| - 1], pid), cs[|cs| - 1], pid)
  }

  lemma {:induction false} RunIsLocal(ps: seq<Located>, pid: int)
    requires Whole(ps)
    ensures LocalOf(RunPackets(EMPTY, ps), pid) == LocalRun(Calls(EMPTY, ps, pid), pid)
  {
    if ps != [] {
      var n := |ps| - 1;
      RunIsLocal(ps[..n], pid);
      PacketIsLocal(RunPackets(EMPTY, ps[..n]), ps[n], pid);
      var cs, c := Calls(EMPTY, ps[..n], pid), CallOf(RunPackets(EMPTY, ps[..n]), ps[n]);
      hide Packet, LocalStep, LocalOf, CallOf;
      if c.PidCall? && c.pid == pid {
        assert (cs + [c.call])[..|cs|] == cs;
      } else {
        assert cs + [] == cs;
      }
    }
  }

  // ======== the reference: PES units ========

  /** Index of the last payload unit start, or -1. */
  function LastStart(cs: seq<Call>): (k: int)
    ensures -1 <= k < |cs| && (k >= 0 ==> cs[k].pusi) && forall i :: k < i < |cs| ==> !cs[i].pusi
  {
    if cs == [] then -1 else if cs[|cs| - 1].pusi then |cs| - 1 else LastStart(cs[..|cs| - 1])
  }

  function TotalBytes(cs: seq<Call>): nat {
    if cs == [] then 0 else TotalBytes(cs[..|cs| - 1]) + |cs[|cs| - 1].payload|
  }

  function HeaderSize(payload: seq<octet>): int
    requires |payload| >= 9
  {
    9 + payload[8] as int
  }

  /** The unit begun at the last start: all its payload bytes less its header. */
  function OpenUnit(cs: seq<Call>): Option<Pes> {
    var k := LastStart(cs);
    if k < 0 then None
    else
      var p := StartPes(cs[k].payload, cs[k].kind, cs[k].offset);
      if p.None? then None
      else Some(p.value.(size := TotalBytes(cs[k..]) - HeaderSize(cs[k].payload)))
  }

  /** One row for every completed unit that has a time stamp and a known kind, in order. */
  function CompletedRows(cs: seq<Call>, pid: int): seq<Row>
    decreases |cs|
  {
    var k := LastStart(cs);
    if k < 0 then [] else CompletedRows(cs[..k], pid) + Emitted(OpenUnit(cs[..k]), pid)
  }

  lemma OpenUnitNext(cs: seq<Call>, c: Call)
    ensures OpenUnit(cs + [c]) ==
              if c.pusi then StartPes(c.payload, c.kind, c.offset)
              else if OpenUnit(cs).Some? then Some(OpenUnit(cs).value.(size := OpenUnit(cs).value.size + |c.payload|))
              else None
  {
    var ds := cs + [c];
    assert ds[..|cs|] == cs;
    var k := LastStart(ds);
    if c.pusi {
      assert ds[k..] == [c] && [c][..0] == [];
      assert TotalBytes([c]) == TotalBytes([]) + |c.payload|;
    } else if k >= 0 {
      assert k == LastStart(cs);
      assert ds[k..] == cs[k..] + [c];
      assert (cs[k..] + [c])[..|cs[k..]|] == cs[k..];
    }
    hide StartPes, TotalBytes, LastStart;
  }

  lemma CompletedRowsNext(cs: seq<Call>, c: Call, pid: int)
    ensures CompletedRows(cs + [c], pid) ==
              if c.pusi then CompletedRows(cs, pid) + Emitted(OpenUnit(cs), pid) else CompletedRows(cs, pid)
  {
    var ds := cs + [c];
    assert ds[..|cs|] == cs;
    var k := LastStart(ds);
    if !c.pusi && k >= 0 {
      assert k == LastStart(cs) && ds[..k] == cs[..k];
    }
  }

  lemma {:induction false} UnitsAreCorrect(cs: seq<Call>, pid: int)
    ensures LocalRun(cs, pid) == Local(OpenUnit(cs), CompletedRows(cs, pid))
  {
    if cs != [] {
      var n := |cs| - 1;
      hide OpenUnit, CompletedRows, StartPes, Emitted;
      UnitsAreCorrect(cs[..n], pid);
      UnitsStep(cs[..n], cs[n], pid);
      assert cs == cs[..n] + [cs[n]];
    }
  }

  lemma UnitsStep(cs: seq<Call>, c: Call, pid: int)
    ensures LocalStep(Local(OpenUnit(cs), CompletedRows(cs, pid)), c, pid) ==
              Local(OpenUnit(cs + [c]), CompletedRows(cs + [c], pid))
  {
    OpenUnitNext(cs, c);
    CompletedRowsNext(cs, c, pid);
    hide OpenUnit, CompletedRows, StartPes, Emitted;
  }

  /** PES accounting on every run: for each PID the open entry holds all payload bytes
      since its start packet less its header, and exactly the completed, stamped units of
      that PID were printed, each with its size, in order. */
  lemma PesAccounting(ps: seq<Located>, pid: int)
    requires Whole(ps)
    ensures var s := RunPackets(EMPTY, ps); var cs := Calls(EMPTY, ps, pid);
            && (if pid in s.pes then Some(s.pes[pid]) else None) == OpenUnit(cs)
            && RowsOf(s.rows, pid) == CompletedRows(cs, pid)
  {
    RunIsLocal(ps, pid);
    UnitsAreCorrect(Calls(EMPTY, ps, pid), pid);
  }

  lemma {:induction false} RunKeepsGood(ps: seq<Located>)
    requires Whole(ps)
    ensures Good(RunPackets(EMPTY, ps))
  {
    if ps != [] {
      var n := |ps| - 1;
      RunKeepsGood(ps[..n]);
      PacketKeepsGood(RunPackets(EMPTY, ps[..n]), ps[n].pkt, ps[n].offset);
      hide Good, Packet;
    }
  }

  // ======== the packet scan ========

  /** A packet is accepted where a sync byte stands and another one follows it, unless
      the file ends there. */
  predicate Accepts(data: seq<octet>, pos: nat) {
    pos + TS_SIZE <= |data| && data[pos] == SYNC && (pos + TS_SIZE < |data| ==> data[pos + TS_SIZE] == SYNC)
  }

  function Positions(data: seq<octet>, pos: nat): seq<nat>
    decreases |data| - pos
  {
    if pos + TS_SIZE > |data| then []
    else if Accepts(data, pos) then [pos] + Positions(data, pos + TS_SIZE)
    else Positions(data, pos + 1)
  }

  lemma {:induction false} PositionsFit(data: seq<octet>, pos: nat)
    ensures forall i :: 0 <= i < |Positions(data, pos)| ==> pos <= Positions(data, pos)[i] <= |data| - TS_SIZE
    decreases |data| - pos
  {
    if pos + TS_SIZE <= |data| {
      if Accepts(data, pos) {
        PositionsFit(data, pos + TS_SIZE);
      } else {
        PositionsFit(data, pos + 1);
      }
    }
  }

  /** Packets are taken greedily: none overlaps the one before, and whatever lies between
      was not acceptable. */
  predicate Greedy(data: seq<octet>, from: nat, ps: seq<nat>)
    decreases |ps|
  {
    if ps == [] then forall q :: from <= q < |data| ==> !Accepts(data, q)
    else from <= ps[0] && Accepts(data, ps[0]) && (forall q :: from <= q < ps[0] ==> !Accepts(data, q))
         && Greedy(data, ps[0] + TS_SIZE, ps[1..])
  }

  lemma {:induction false} PositionsAreGreedy(data: seq<octet>, pos: nat)
    ensures Greedy(data, pos, Positions(data, pos))
    decreases |data| - pos
  {
    if pos + TS_SIZE > |data| {
    } else if Accepts(data, pos) {
      PositionsAreGreedy(data, pos + TS_SIZE);
      assert Positions(data, pos)[1..] == Positions(data, pos + TS_SIZE);
    } else {
      PositionsAreGreedy(data, pos + 1);
    }
  }

  /** What is taken: a sync byte, and another one 188 bytes on unless the file ends there. */
  lemma {:induction false} TakenInSync(data: seq<octet>, pos: nat, i: nat)
    requires i < |Positions(data, pos)|
    ensures var p := Positions(data, pos)[i];
            p + 188 <= |data| && data[p] == 0x47 && (p + 188 == |data| || data[p + 188] == 0x47)
    decreases |data| - pos
  {
    if Accepts(data, pos) {
      if i > 0 {
        TakenInSync(data, pos + TS_SIZE, i - 1);
      }
    } else {
      TakenInSync(data, pos + 1, i);
    }
  }

  function Grid(from: nat, n: nat): (r: seq<nat>)
    ensures |r| == n && forall k :: 0 <= k < n ==> r[k] == from + k * TS_SIZE
  {
    seq(n, k requires 0 <= k < n => from + k * TS_SIZE)
  }

  lemma GridFirst(from: nat, n: nat)
    requires n > 0
    ensures Grid(from, n) == [from] + Grid(from + TS_SIZE, n - 1)
  {
  }

  /** A sync byte on each packet boundary from start on. */
  ghost predicate InSync(data: seq<octet>, start: nat) {
    forall k: nat :: start + k * TS_SIZE < |data| ==> data[start + k * TS_SIZE] == SYNC
  }

  lemma InSyncNext(data: seq<octet>, start: nat)
    requires InSync(data, start) && start + TS_SIZE <= |data|
    ensures Accepts(data, start) && InSync(data, start + TS_SIZE)
  {
    assert data[start + 0 * TS_SIZE] == SYNC;
    assert start + 1 * TS_SIZE < |data| ==> data[start + 1 * TS_SIZE] == SYNC;
    forall k: nat | start + TS_SIZE + k * TS_SIZE < |data|
      ensures data[start + TS_SIZE + k * TS_SIZE] == SYNC
    {
      assert data[start + (k + 1) * TS_SIZE] == SYNC;
    }
  }

  /** Resynchronisation: behind any garbage in which nothing is acceptable, every packet of
      a stream with a sync byte on each packet boundary is found, and nothing else. */
  lemma {:induction false} Resynchronises(data: seq<octet>, from: nat, start: nat)
    requires from <= start <= |data|
    requires forall q :: from <= q < start ==> !Accepts(data, q)
    requires InSync(data, start)
    ensures Positions(data, from) == Grid(start, (|data| - start) / TS_SIZE)
    decreases |data| - from
  {
    var n := (|data| - start) / TS_SIZE;
    if from + TS_SIZE > |data| {
      assert n == 0;
    } else if from < start {
      Resynchronises(data, from + 1, start);
    } else {
      InSyncNext(data, start);
      assert n > 0 && (|data| - (start + TS_SIZE)) / TS_SIZE == n - 1;
      GridFirst(start, n);
      hide InSync, Accepts, Grid;
      Resynchronises(data, start + TS_SIZE, start + TS_SIZE);
    }
  }

  /** The analyzer over a list of positions, stopping when enough rows are printed. */
  function RunLimited(s: State, data: seq<octet>, ps: seq<nat>, limit: nat): State
    requires forall i :: 0 <= i < |ps| ==> ps[i] + TS_SIZE <= |data|
    decreases |ps|
  {
    if ps == [] then s
    else
      var e := Packet(s, data[ps[0]..ps[0] + TS_SIZE], ps[0]);
      if limit > 0 && |e.rows| >= limit then e else RunLimited(e, data, ps[1..], limit)
  }

  /** The whole scan of a file. */
  function ScanAll(s: State, data: seq<octet>, pos: nat, limit: nat): State
  {
    PositionsFit(data, pos);
    RunLimited(s, data, Positions(data, pos), limit)
  }

  lemma ScanAllStep(s: State, data: seq<octet>, pos: nat, limit: nat)
    ensures pos + TS_SIZE > |data| ==> ScanAll(s, data, pos, limit) == s
    ensures pos + TS_SIZE <= |data| && !Accepts(data, pos) ==>
              ScanAll(s, data, pos, limit) == ScanAll(s, data, pos + 1, limit)
    ensures Accepts(data, pos) ==>
              var e := Packet(s, data[pos..pos + TS_SIZE], pos);
              ScanAll(s, data, pos, limit) ==
                if limit > 0 && |e.rows| >= limit then e else ScanAll(e, data, pos + TS_SIZE, limit)
  {
    hide Packet;
    PositionsFit(data, pos);
    if Accepts(data, pos) {
      assert Positions(data, pos)[0] == pos && Positions(data, pos)[1..] == Positions(data, pos + TS_SIZE);
    }
  }

  /** The scan loop of the parser. */
  method Process(analyzer: TsAnalyzer, data: seq<octet>)
    requires analyzer.Valid()
    modifies analyzer
    ensures analyzer.Valid()
    ensures analyzer.View() == ScanAll(old(analyzer.View()), data, 0, analyzer.frameLimit)
  {
    hide Packet, Good, ScanAll;
    var pos := 0;
    while pos + TS_SIZE <= |data|
      invariant analyzer.Valid()
      invariant ScanAll(analyzer.View(), data, pos, analyzer.frameLimit) ==
                  ScanAll(old(analyzer.View()), data, 0, analyzer.frameLimit)
      decreases |data| - pos
    {
      ScanAllStep(analyzer.View(), data, pos, analyzer.frameLimit);
      if data[pos] as int != SYNC {
        pos := pos + 1;
        continue;
      }
      if pos + TS_SIZE < |data| {
        if data[pos + TS_SIZE] as int != SYNC {
          pos := pos + 1;
          continue;
        }
      }
      analyzer.Handle(data[pos..pos + TS_SIZE], pos);
      pos := pos + TS_SIZE;
      if analyzer.Done() {
        return;
      }
    }
    ScanAllStep(analyzer.View(), data, pos, analyzer.frameLimit);
  }

  /** The packets at some positions of a file. */
  function Cut(data: seq<octet>, ps: seq<nat>): (r: seq<Located>)
    requires forall i :: 0 <= i < |ps| ==> ps[i] + TS_SIZE <= |data|
    ensures Whole(r) && |r| == |ps|
  {
    seq(|ps|, i requires 0 <= i < |ps| => Located(data[ps[i]..ps[i] + TS_SIZE], ps[i]))
  }

  lemma {:induction false} RunFromFirst(s: State, p: Located, ps: seq<Located>)
    requires Whole(ps) && |p.pkt| == TS_SIZE
    ensures RunPackets(s, [p] + ps) == RunPackets(Packet(s, p.pkt, p.offset), ps)
    decreases |ps|
  {
    hide Packet;
    var qs := [p] + ps;
    if ps == [] {
      assert qs[..0] == [];
      assert RunPackets(s, qs) == Packet(RunPackets(s, []), p.pkt, p.offset);
    } else {
      var n := |ps| - 1;
      RunFromFirst(s, p, ps[..n]);
      assert qs[..n + 1] == [p] + ps[..n];
    }
  }

  /** A limited scan is a plain run over a first part of the packets, and over all of them
      unless the limit was reached. */
  lemma {:induction false} LimitedIsRun(s: State, data: seq<octet>, ps: seq<nat>, limit: nat) returns (n: nat)
    requires forall i :: 0 <= i < |ps| ==> ps[i] + TS_SIZE <= |data|
    ensures n <= |ps| && RunLimited(s, data, ps, limit) == RunPackets(s, Cut(data, ps[..n]))
    ensures n < |ps| ==> limit > 0 && |RunLimited(s, data, ps, limit).rows| >= limit
    decreases |ps|
  {
    hide Packet, Cut;
    n := 0;
    if ps == [] {
      assert ps[..0] == [];
    } else {
      var p := Located(data[ps[0]..ps[0] + TS_SIZE], ps[0]);
      var e := Packet(s, p.pkt, p.offset);
      var m := 0;
      if limit > 0 && |e.rows| >= limit {
        assert RunPackets(e, Cut(data, ps[1..][..0])) == e;
      } else {
        m := LimitedIsRun(e, data, ps[1..], limit);
      }
      n := m + 1;
      CutFirst(data, ps, m);
      hide RunPackets;
      RunFromFirst(s, p, Cut(data, ps[1..][..m]));
    }
  }

  lemma CutFirst(data: seq<octet>, ps: seq<nat>, m: nat)
    requires forall i :: 0 <= i < |ps| ==> ps[i] + TS_SIZE <= |data|
    requires m < |ps|
    ensures Cut(data, ps[..m + 1]) == [Located(data[ps[0]..ps[0] + TS_SIZE], ps[0])] + Cut(data, ps[1..][..m])
  {
  }

  /** Accounting for a whole file: after the scan, PES entries and printed rows of each PID
      are those of the packets scanned. */
  lemma FileAccounting(data: seq<octet>, limit: nat, pid: int) returns (ps: seq<nat>)
    ensures ps <= Positions(data, 0) && forall i :: 0 <= i < |ps| ==> ps[i] + TS_SIZE <= |data|
    ensures var s := ScanAll(EMPTY, data, 0, limit); var cs := Calls(EMPTY, Cut(data, ps), pid);
            && (if pid in s.pes then Some(s.pes[pid]) else None) == OpenUnit(cs)
            && RowsOf(s.rows, pid) == CompletedRows(cs, pid)
            && Good(s)
            && (ps != Positions(data, 0) ==> limit > 0 && |s.rows| >= limit)
  {
    PositionsFit(data, 0);
    var all := Positions(data, 0);
    var n := LimitedIsRun(EMPTY, data, all, limit);
    ps := all[..n];
    PesAccounting(Cut(data, ps), pid);
    RunKeepsGood(Cut(data, ps));
    hide Positions, Calls, OpenUnit, RowsOf, CompletedRows, Good, RunLimited, RunPackets;
  }

  /** With a positive limit the scan never prints more rows than the limit. */
  lemma {:induction false} LimitHolds(s: State, data: seq<octet>, ps: seq<nat>, limit: nat)
    requires forall i :: 0 <= i < |ps| ==> ps[i] + TS_SIZE <= |data|
    requires limit > 0 && |s.rows| < limit && Good(s)
    ensures |RunLimited(s, data, ps, limit).rows| <= limit && Good(RunLimited(s, data, ps, limit))
    decreases |ps|
  {
    if ps != [] {
      PacketKeepsGood(s, data[ps[0]..ps[0] + TS_SIZE], ps[0]);
      hide Packet, Good;
      var e := Packet(s, data[ps[0]..ps[0] + TS_SIZE], ps[0]);
      if |e.rows| < limit {
        LimitHolds(e, data, ps[1..], limit);
      }
    }
  }

  // ======== the closing call ========

  /** Finishing all open entries, in whatever order, prints for each PID the row of its
      open entry if there is one to print, and disturbs no other PID. */
  lemma {:induction false} FinishAllIsLocal(s: State, order: seq<int>, pid: int)
    requires forall i, j :: 0 <= i < j < |order| ==> order[i] != order[j]
    ensures LocalOf(FinishAll(s, order), pid) ==
              if pid in order then Local(None, RowsOf(s.rows, pid) + Emitted(LocalOf(s, pid).open, pid))
              else LocalOf(s, pid)
  {
    if order != [] {
      var n := |order| - 1;
      FinishAllIsLocal(s, order[..n], pid);
      FinishIsLocal(FinishAll(s, order[..n]), order[n], pid);
      hide FinishPes, Emitted, RowsOf;
      assert order == order[..n] + [order[n]];
    }
  }

  /** A whole run of the program: scan the file, then finish what is open. */
  method Analyze(analyzer: TsAnalyzer, data: seq<octet>) returns (ghost order: seq<int>)
    requires analyzer.Valid()
    modifies analyzer
    ensures var s := ScanAll(old(analyzer.View()), data, 0, analyzer.frameLimit);
            && Enumerates(order, s.pes.Keys) && analyzer.View() == FinishAll(s, order)
            && analyzer.frameCount == |analyzer.printed| == |s.rows| + Open(s.pes, s.pes.Keys)
            && (analyzer.frameCount <= analyzer.frameLimit <==>
                  |s.rows| + Open(s.pes, s.pes.Keys) <= analyzer.frameLimit)
  {
    hide Good, ScanAll, FinishAll, Open;
    Process(analyzer, data);
    order := analyzer.Finish();
  }

  /** What the program has printed for a PID in the end: every completed unit of the packets
      scanned, and last the unit still open, each if it is stamped and of a known kind. */
  lemma FileRows(data: seq<octet>, limit: nat, pid: int, order: seq<int>) returns (ps: seq<nat>)
    requires Enumerates(order, ScanAll(EMPTY, data, 0, limit).pes.Keys)
    ensures ps <= Positions(data, 0) && forall i :: 0 <= i < |ps| ==> ps[i] + TS_SIZE <= |data|
    ensures limit == 0 ==> ps == Positions(data, 0)
    ensures var cs := Calls(EMPTY, Cut(data, ps), pid);
            RowsOf(FinishAll(ScanAll(EMPTY, data, 0, limit), order).rows, pid) ==
              CompletedRows(cs, pid) + Emitted(OpenUnit(cs), pid)
  {
    ps := FileAccounting(data, limit, pid);
    var s := ScanAll(EMPTY, data, 0, limit);
    FinishAllIsLocal(s, order, pid);
    hide ScanAll, FinishAll, Calls, OpenUnit, CompletedRows, RowsOf;
    if pid !in s.pes {
      assert RowsOf(s.rows, pid) + [] == RowsOf(s.rows, pid);
    }
  }
}
