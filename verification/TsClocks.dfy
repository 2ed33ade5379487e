/** The clocks behind the printed times: over a whole run they are told by the clock values
    received and the frames printed, in the order in which they came. */
module TsClocks {
  import opened Basics
  import opened TsPacket
  import opened TsTimestamps
  import opened TsTables
  import opened TsAnalyzer
  import opened TsPes
  import opened TsLayout

  /** A clock value in 27 MHz ticks, or a frame printed. */
  datatype Event = Clock(value: int) | Frame(row: Row)

  /** The time of an event in 27 MHz ticks; a time stamp counts 90 kHz. */
  function Ticks(e: Event): int {
    match e case Clock(v) => v case Frame(r) => 300 * r.pts
  }

  function ClockValues(es: seq<Event>): seq<int> {
    if es == [] then [] else
      ClockValues(es[..|es| - 1]) + if es[|es| - 1].Clock? then [es[|es| - 1].value] else []
  }

  function Frames(es: seq<Event>): seq<Row> {
    if es == [] then [] else
      Frames(es[..|es| - 1]) + if es[|es| - 1].Frame? then [es[|es| - 1].row] else []
  }

  /** The time stamp of the last frame of a kind. */
  function LastOfKind(rows: seq<Row>, kind: Kind): Option<int> {
    if rows == [] then None
    else if rows[|rows| - 1].kind == kind then Some(rows[|rows| - 1].pts)
    else LastOfKind(rows[..|rows| - 1], kind)
  }

  /** The origin is the time of the first event, clock or frame; clock differences refer to
      the first and the last clock value, time stamp differences to the last frame and to
      the last frame of the same kind. */
  predicate Told(c: Clocks, es: seq<Event>) {
    var vs, rows := ClockValues(es), Frames(es);
    && c.ptsOrigin == (if es == [] then None else Some(Ticks(es[0])))
    && c.firstPcr == (if vs == [] then None else Some(vs[0]))
    && c.previousPcr == (if vs == [] then None else Some(vs[|vs| - 1]))
    && c.previousPts == (if rows == [] then None else Some(rows[|rows| - 1].pts))
    && forall k: Kind :: LastOfKind(rows, k) == if k in c.previousByKind then Some(c.previousByKind[k]) else None
  }

  lemma ClockNext(es: seq<Event>, v: int)
    ensures ClockValues(es + [Clock(v)]) == ClockValues(es) + [v] && Frames(es + [Clock(v)]) == Frames(es)
  {
    assert (es + [Clock(v)])[..|es|] == es;
  }

  lemma FrameNext(es: seq<Event>, r: Row)
    ensures ClockValues(es + [Frame(r)]) == ClockValues(es) && Frames(es + [Frame(r)]) == Frames(es) + [r]
  {
    assert (es + [Frame(r)])[..|es|] == es;
  }

  lemma NoEvents(es: seq<Event>)
    requires ClockValues(es) != [] || Frames(es) != []
    ensures es != []
  {
  }

  lemma ClockTold(c: Clocks, es: seq<Event>, v: int)
    requires Told(c, es)
    ensures Told(Recorded(c, v), es + [Clock(v)])
  {
    ClockNext(es, v);
    assert es != [] ==> (es + [Clock(v)])[0] == es[0];
    hide ClockValues, Frames, LastOfKind;
  }

  lemma FrameTold(c: Clocks, es: seq<Event>, r: Row)
    requires Told(c, es)
    ensures Told(Clocks(if c.ptsOrigin.Some? then c.ptsOrigin else Some(300 * r.pts), Some(r.pts),
                        c.previousByKind[r.kind := r.pts], c.firstPcr, c.previousPcr), es + [Frame(r)])
  {
    FrameNext(es, r);
    assert es != [] ==> (es + [Frame(r)])[0] == es[0];
    var rows := Frames(es);
    assert (rows + [r])[..|rows|] == rows;
    forall k: Kind
      ensures LastOfKind(rows + [r], k) == if r.kind == k then Some(r.pts) else LastOfKind(rows, k)
    {
    }
    hide ClockValues, Frames, LastOfKind;
  }

  // ======== what a packet adds ========

  /** The clock value a packet brings. */
  function ClockOf(s: State, pkt: seq<octet>): Option<int>
    requires |pkt| == TS_SIZE
  {
    var adaptation := AdaptationOf(pkt);
    if pkt[0] == SYNC && (adaptation == 2 || adaptation == 3) && pkt[4] >= 7 && s.pcrPid == Some(PidOf(pkt))
       && pkt[5] / 16 % 2 == 1
    then Some(DecodePcr(pkt[6], pkt[7], pkt[8], pkt[9], pkt[10], pkt[11])) else None
  }

  /** Of a laid out packet it is the value in its field. */
  lemma ClockOfLaid(s: State, pkt: seq<octet>, h: Header, field: seq<octet>, payload: seq<octet>, v: nat)
    requires Laid(pkt, h, field, payload)
    ensures h.control >= 2 && ClockAt(field, v) && s.pcrPid == Some(h.pid) ==> ClockOf(s, pkt) == Some(v)
    ensures h.control < 2 || |field| < 7 || field[0] / 16 % 2 == 0 || s.pcrPid != Some(h.pid) ==>
              ClockOf(s, pkt) == None
  {
    HeaderIsRead(pkt, h, field, payload);
    if h.control >= 2 {
      FieldIsThere(pkt, h, field, payload);
      if |field| >= 1 {
        assert pkt[5] == pkt[5..5 + |field|][0];
      }
      if ClockAt(field, v) {
        ClockBytes(pkt, field, v);
        PcrRoundTrip(v);
      }
    }
    hide Laid, DecodePcr, PcrByte;
  }

  function ClockEvents(s: State, pkt: seq<octet>): seq<Event>
    requires |pkt| == TS_SIZE
  {
    var v := ClockOf(s, pkt);
    if v.Some? then [Clock(v.value)] else []
  }

  function FrameEvents(rows: seq<Row>): (es: seq<Event>)
    ensures |es| == |rows|
  {
    seq(|rows|, i requires 0 <= i < |rows| => Frame(rows[i]))
  }

  /** The events of a run: of each packet first its clock value, then the frame it closes. */
  function Events(s: State, ps: seq<Located>): seq<Event>
    requires Whole(ps)
  {
    if ps == [] then [] else
      var n := |ps| - 1;
      var before := RunPackets(s, ps[..n]);
      var p := ps[n];
      Events(s, ps[..n]) + ClockEvents(before, p.pkt) + FrameEvents(Closed(before, p))
  }

  /** The row, if any, of the entry a packet closes. */
  function Closed(s: State, p: Located): seq<Row>
    requires |p.pkt| == TS_SIZE
  {
    var c := CallOf(s, p);
    if c.PidCall? && c.call.pusi && c.pid in s.pes && Printable(s.pes[c.pid]) then [RowOf(c.pid, s.pes[c.pid])] else []
  }

  lemma ClockIsTold(s: State, pkt: seq<octet>, es: seq<Event>)
    requires |pkt| == TS_SIZE && pkt[0] == SYNC && Told(s.clocks, es)
    ensures Told(WithPcr(s, pkt).clocks, es + ClockEvents(s, pkt))
    ensures Frames(es + ClockEvents(s, pkt)) == Frames(es)
  {
    var v := ClockOf(s, pkt);
    if v.Some? {
      ClockTold(s.clocks, es, v.value);
      ClockNext(es, v.value);
      WithPcrRecords(s, pkt);
    } else {
      assert es + [] == es;
    }
    hide DecodePcr, Told, Frames;
  }

  lemma WithPcrRecords(s: State, pkt: seq<octet>)
    requires |pkt| == TS_SIZE && ClockOf(s, pkt).Some?
    ensures WithPcr(s, pkt) == s.(clocks := Recorded(s.clocks, ClockOf(s, pkt).value))
  {
    hide DecodePcr;
    var data := pkt[6..12];
    assert data[0] == pkt[6] && data[1] == pkt[7] && data[2] == pkt[8];
    assert data[3] == pkt[9] && data[4] == pkt[10] && data[5] == pkt[11];
  }

  /** Closing an entry is a frame event or none. */
  lemma CloseIsTold(s: State, pid: int, es: seq<Event>)
    requires Told(s.clocks, es) && Frames(es) == s.rows
    ensures var e := FinishPes(s, pid);
            var rows := if pid in s.pes && Printable(s.pes[pid]) then [RowOf(pid, s.pes[pid])] else [];
            Told(e.clocks, es + FrameEvents(rows)) && Frames(es + FrameEvents(rows)) == e.rows
  {
    if pid in s.pes && Printable(s.pes[pid]) {
      var r := RowOf(pid, s.pes[pid]);
      assert FrameEvents([r]) == [Frame(r)];
      FrameTold(s.clocks, es, r);
      FrameNext(es, r);
    } else {
      assert es + FrameEvents([]) == es;
    }
    hide Told, Frames;
  }

  lemma ParseIsTold(s: State, pid: int, payload: seq<octet>, pusi: bool, offset: int, es: seq<Event>)
    requires pid in s.streams && Told(s.clocks, es) && Frames(es) == s.rows
    ensures var e := ParsePes(s, pid, payload, pusi, offset);
            var rows := if pusi && pid in s.pes && Printable(s.pes[pid]) then [RowOf(pid, s.pes[pid])] else [];
            Told(e.clocks, es + FrameEvents(rows)) && Frames(es + FrameEvents(rows)) == e.rows
  {
    CloseIsTold(s, pid, es);
    assert es + FrameEvents([]) == es;
    hide FinishPes, StartPes, Told, Frames;
  }

  lemma PacketIsTold(s: State, p: Located, es: seq<Event>)
    requires |p.pkt| == TS_SIZE && Told(s.clocks, es) && Frames(es) == s.rows
    ensures var e := Packet(s, p.pkt, p.offset);
            var fs := es + ClockEvents(s, p.pkt) + FrameEvents(Closed(s, p));
            Told(e.clocks, fs) && Frames(fs) == e.rows
  {
    var fs := es + ClockEvents(s, p.pkt);
    assert fs + FrameEvents([]) == fs;
    if p.pkt[0] != SYNC {
      assert ClockEvents(s, p.pkt) == [] && fs == es;
      hide Told, Frames, WithPcr;
    } else {
      ClockIsTold(s, p.pkt, es);
      WithPcrKeeps(s, p.pkt);
      hide Told, Frames, ClockEvents;
      DispatchIsTold(WithPcr(s, p.pkt), s, p, fs);
    }
  }

  lemma DispatchIsTold(s1: State, s: State, p: Located, es: seq<Event>)
    requires |p.pkt| == TS_SIZE && p.pkt[0] == SYNC && s1 == WithPcr(s, p.pkt) && s1.pes == s.pes
    requires Told(s1.clocks, es) && Frames(es) == s1.rows
    ensures var e := Packet(s, p.pkt, p.offset);
            var fs := es + FrameEvents(Closed(s, p));
            Told(e.clocks, fs) && Frames(fs) == e.rows
  {
    var q, pos := PidOf(p.pkt), PayloadStart(p.pkt);
    hide WithPcr, Told, Frames, RowOf, Printable, PayloadStart, FrameEvents;
    assert es + FrameEvents([]) == es;
    if q in s1.streams {
      ParseIsTold(s1, q, p.pkt[pos..], PusiOf(p.pkt), p.offset, es);
    }
    hide ParsePes, ApplyPat, ApplyPmt;
    TablesKeepClocks(s1, p.pkt[pos..], PusiOf(p.pkt));
  }

  lemma TablesKeepClocks(s: State, payload: seq<octet>, pusi: bool)
    ensures ApplyPat(s, payload, pusi).clocks == s.clocks && ApplyPat(s, payload, pusi).rows == s.rows
    ensures ApplyPmt(s, payload, pusi).clocks == s.clocks && ApplyPmt(s, payload, pusi).rows == s.rows
  {
    hide PatResult, PmtResult, AddStreams;
  }

  /** On every run the clocks are those of its events, and its frames are the rows. */
  lemma {:induction false} RunIsTold(ps: seq<Located>)
    requires Whole(ps)
    ensures var s, es := RunPackets(EMPTY, ps), Events(EMPTY, ps); Told(s.clocks, es) && Frames(es) == s.rows
  {
    if ps != [] {
      var n := |ps| - 1;
      RunIsTold(ps[..n]);
      PacketIsTold(RunPackets(EMPTY, ps[..n]), ps[n], Events(EMPTY, ps[..n]));
      hide Packet, Told, Frames, Closed, ClockEvents, FrameEvents;
    }
  }

  /** The closing call adds frames and nothing else. */
  lemma {:induction false} FinishAllIsTold(s: State, order: seq<int>, es: seq<Event>) returns (fs: seq<Event>)
    requires Told(s.clocks, es) && Frames(es) == s.rows
    ensures var e := FinishAll(s, order); Told(e.clocks, fs) && Frames(fs) == e.rows
    ensures es <= fs && forall i :: |es| <= i < |fs| ==> fs[i].Frame?
  {
    fs := es;
    if order != [] {
      var n := |order| - 1;
      fs := FinishAllIsTold(s, order[..n], es);
      var f := FinishAll(s, order[..n]);
      CloseIsTold(f, order[n], fs);
      var rows := if order[n] in f.pes && Printable(f.pes[order[n]]) then [RowOf(order[n], f.pes[order[n]])] else [];
      fs := fs + FrameEvents(rows);
      hide Told, Frames, FinishPes;
    }
  }
}
