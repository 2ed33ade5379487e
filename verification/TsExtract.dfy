/** The elementary stream extractor: one PID's payload bytes, counted and checked for
    continuity as they are written. */
module TsExtract {
  import opened Basics
  import opened TsPacket
  import opened TsContinuity

  const TS_DATA_SIZE: nat := 184

  /** Header fields of a 188-byte packet: payload unit start, PID, adaptation, counter. */
  datatype Head = Head(start: bool, pid: int, adapt: int, cc: int)

  function HeadOf(pkt: seq<octet>): (h: Head)
    requires |pkt| == TS_SIZE
    ensures 0 <= h.cc < 16
  {
    Head(PusiOf(pkt), PidOf(pkt), AdaptationOf(pkt), CounterOf(pkt))
  }

  /** Where the bytes written begin behind the header; none if nothing is written. */
  datatype Start = Nowhere | At(offset: nat)

  function StartOf(pkt: seq<octet>): (s: Start)
    requires |pkt| == TS_SIZE
    ensures s.At? ==> s.offset < TS_DATA_SIZE
  {
    var h := HeadOf(pkt);
    if h.adapt == 1 then At(if h.start then 14 else 0)
    else if h.adapt == 3 && 1 + pkt[4] as int < TS_DATA_SIZE then At(1 + pkt[4] as int)
    else Nowhere
  }

  function Payload(pkt: seq<octet>): seq<octet>
    requires |pkt| == TS_SIZE
  {
    if StartOf(pkt).At? then pkt[4 + StartOf(pkt).offset..] else []
  }

  /** A frame begins with a start packet that has no adaptation field; every other packet
      written adds its payload. */
  function FrameSizeAfter(size: int, pkt: seq<octet>): int
    requires |pkt| == TS_SIZE
  {
    if HeadOf(pkt).start && HeadOf(pkt).adapt == 1 then |Payload(pkt)| else size + |Payload(pkt)|
  }

  class ExtractPid {
    const pid: int
    var out: seq<octet>
    var pidPackets: nat
    var extractedPackets: nat
    var bytesCnt: nat
    var continuity: int
    var frameSize: int
    var losses: seq<int>   // the numbers printed for broken continuity

    ghost predicate Valid()
      reads this
    {
      -1 <= continuity < 16 && bytesCnt == |out|
    }

    constructor (pid: int)
      ensures Valid() && this.pid == pid && out == [] && losses == []
      ensures pidPackets == extractedPackets == bytesCnt == 0 && continuity == -1 && frameSize == 0
    {
      this.pid := pid;
      out, losses := [], [];
      pidPackets, extractedPackets, bytesCnt, continuity, frameSize := 0, 0, 0, -1, 0;
    }

    method CheckContinuity(cc: int)
      requires Valid() && 0 <= cc < 16
      modifies this`continuity, this`losses
      ensures Valid() && continuity == cc
      ensures losses == old(losses) +
                if old(continuity) >= 0 && ExtractorLoss(old(continuity), cc) != -1
                then [ExtractorLoss(old(continuity), cc)] else []
    {
      if continuity < 0 {
        continuity := cc;
        return;
      }
      if (continuity + 1) % 16 != cc {
        var lost := cc - continuity - 1;
        if lost < 0 {
          lost := lost + 16;
        }
        losses := losses + [lost];
      }
      continuity := cc;
    }

    method Write(pkt: seq<octet>, offset: nat)
      requires Valid() && |pkt| == TS_SIZE && offset <= TS_DATA_SIZE
      modifies this`out, this`bytesCnt, this`extractedPackets
      ensures Valid() && out == old(out) + pkt[4 + offset..] && extractedPackets == old(extractedPackets) + 1
    {
      out := out + pkt[4 + offset..];
      bytesCnt := bytesCnt + TS_DATA_SIZE - offset;
      extractedPackets := extractedPackets + 1;
    }

    method Extract(pkt: seq<octet>)
      requires Valid() && |pkt| == TS_SIZE
      modifies this`out, this`bytesCnt, this`extractedPackets, this`frameSize
      ensures Valid() && out == old(out) + Payload(pkt)
      ensures extractedPackets == old(extractedPackets) + if StartOf(pkt).At? then 1 else 0
      ensures frameSize == FrameSizeAfter(old(frameSize), pkt)
    {
      var h := HeadOf(pkt);
      if h.adapt == 1 {
        var ofst := if h.start then 14 else 0;
        if h.start {
          frameSize := 0;
        }
        frameSize := frameSize + TS_DATA_SIZE - ofst;
        Write(pkt, ofst);
      } else if h.adapt == 3 {
        var payloadOffset := 1 + pkt[4] as int;
        if payloadOffset >= TS_DATA_SIZE {
          return;
        }
        frameSize := frameSize + TS_DATA_SIZE - payloadOffset;
        Write(pkt, payloadOffset);
      }
    }

    /** One packet handed over by the parser. */
    method Call(pkt: seq<octet>)
      requires Valid() && |pkt| == TS_SIZE
      modifies this
      ensures Valid()
      ensures HeadOf(pkt).pid != pid ==> unchanged(this)
      ensures HeadOf(pkt).pid == pid ==>
                && out == old(out) + Payload(pkt) && pidPackets == old(pidPackets) + 1
                && continuity == HeadOf(pkt).cc
                && losses == Losses(old(losses), old(continuity), HeadOf(pkt).cc)
                && extractedPackets == old(extractedPackets) + (if StartOf(pkt).At? then 1 else 0)
                && frameSize == FrameSizeAfter(old(frameSize), pkt)
    {
      var h := HeadOf(pkt);
      if h.pid != pid {
        return;
      }
      CheckContinuity(h.cc);
      Extract(pkt);
      pidPackets := pidPackets + 1;
    }
  }

  function Losses(losses: seq<int>, prev: int, cc: int): seq<int> {
    if prev >= 0 && ExtractorLoss(prev, cc) != -1 then losses + [ExtractorLoss(prev, cc)] else losses
  }

  // ======== whole runs ========

  predicate Packets(pkts: seq<seq<octet>>) {
    forall i :: 0 <= i < |pkts| ==> |pkts[i]| == TS_SIZE
  }

  /** The continuity counters of one PID's packets. */
  function Counters(pkts: seq<seq<octet>>, pid: int): seq<int>
    requires Packets(pkts)
  {
    if pkts == [] then [] else
      var h := HeadOf(pkts[|pkts| - 1]);
      Counters(pkts[..|pkts| - 1], pid) + if h.pid == pid then [h.cc] else []
  }

  /** The payload bytes of one PID's packets. */
  function Payloads(pkts: seq<seq<octet>>, pid: int): seq<octet>
    requires Packets(pkts)
  {
    if pkts == [] then [] else
      var pkt := pkts[|pkts| - 1];
      Payloads(pkts[..|pkts| - 1], pid) + if HeadOf(pkt).pid == pid then Payload(pkt) else []
  }

  function LastOf(ccs: seq<int>): int {
    if ccs == [] then -1 else ccs[|ccs| - 1]
  }

  /** The numbers printed for a sequence of counters. */
  function LossesOf(ccs: seq<int>): seq<int> {
    if ccs == [] then [] else
      var before := ccs[..|ccs| - 1];
      Losses(LossesOf(before), LastOf(before), ccs[|ccs| - 1])
  }

  lemma OnePacketMore(pkts: seq<seq<octet>>, n: nat, pid: int)
    requires Packets(pkts) && n < |pkts|
    ensures var h := HeadOf(pkts[n]); var cs := Counters(pkts[..n], pid);
            && Counters(pkts[..n + 1], pid) == (if h.pid == pid then cs + [h.cc] else cs)
            && Payloads(pkts[..n + 1], pid) ==
                 Payloads(pkts[..n], pid) + (if h.pid == pid then Payload(pkts[n]) else [])
            && (h.pid == pid ==> LossesOf(cs + [h.cc]) == Losses(LossesOf(cs), LastOf(cs), h.cc))
            && LastOf(cs + [h.cc]) == h.cc
  {
    assert pkts[..n + 1][..n] == pkts[..n];
    var cs, h := Counters(pkts[..n], pid), HeadOf(pkts[n]);
    assert (cs + [h.cc])[..|cs|] == cs;
    hide HeadOf, Payload, Losses;
  }

  /** Where the frame begins that is open behind the first n packets: at the last start
      packet of the PID without adaptation field, or with the run. */
  function FrameStart(pkts: seq<seq<octet>>, n: nat, pid: int): (k: nat)
    requires Packets(pkts) && n <= |pkts|
    ensures k <= n
  {
    if n == 0 then 0 else
      var h := HeadOf(pkts[n - 1]);
      if h.pid == pid && h.start && h.adapt == 1 then n - 1 else FrameStart(pkts, n - 1, pid)
  }

  lemma FrameGrows(pkts: seq<seq<octet>>, n: nat, pid: int)
    requires Packets(pkts) && n < |pkts|
    ensures var size := |Payloads(pkts[FrameStart(pkts, n, pid)..n], pid)|;
            |Payloads(pkts[FrameStart(pkts, n + 1, pid)..n + 1], pid)|
            == if HeadOf(pkts[n]).pid == pid then FrameSizeAfter(size, pkts[n]) else size
  {
    var k, j := FrameStart(pkts, n, pid), FrameStart(pkts, n + 1, pid);
    if j == n {
      var last := [pkts[n]];
      assert pkts[n..n + 1] == last && last[..0] == [] && pkts[n..n] == [];
    } else {
      assert k == j && pkts[k..n + 1] == pkts[k..n] + [pkts[n]];
      assert (pkts[k..n] + [pkts[n]])[..n - k] == pkts[k..n];
    }
    hide HeadOf, Payload, FrameStart;
  }

  /** The packets of the PID of which something is written. */
  function Written(pkts: seq<seq<octet>>, pid: int): set<nat>
    requires Packets(pkts)
  {
    set i: nat | i < |pkts| && HeadOf(pkts[i]).pid == pid && StartOf(pkts[i]).At?
  }

  lemma WrittenNext(pkts: seq<seq<octet>>, n: nat, pid: int)
    requires Packets(pkts) && n < |pkts|
    ensures |Written(pkts[..n + 1], pid)| ==
              |Written(pkts[..n], pid)| + if HeadOf(pkts[n]).pid == pid && StartOf(pkts[n]).At? then 1 else 0
  {
    hide HeadOf, StartOf;
    var w := Written(pkts[..n], pid);
    assert Written(pkts[..n + 1], pid) ==
             w + if HeadOf(pkts[n]).pid == pid && StartOf(pkts[n]).At? then {n} else {};
  }

  /** The packets found in a file, in order, through a new extractor: the output is the
      payload of its PID's packets, the packets written are counted, the frame size is what
      was written since the last frame began, and the numbers printed are those of the
      counters. */
  method ExtractAll(pid: int, pkts: seq<seq<octet>>) returns (e: ExtractPid)
    requires Packets(pkts)
    ensures e.Valid() && e.out == Payloads(pkts, pid)
    ensures e.pidPackets == |Counters(pkts, pid)| && e.losses == LossesOf(Counters(pkts, pid))
    ensures e.extractedPackets == |Written(pkts, pid)|
    ensures e.frameSize == |Payloads(pkts[FrameStart(pkts, |pkts|, pid)..], pid)|
  {
    hide HeadOf, StartOf, Payload, Losses, Counters, Payloads, LossesOf, Written, FrameStart, FrameSizeAfter;
    e := new ExtractPid(pid);
    EmptyRun(pid);
    for n := 0 to |pkts|
      invariant e.Valid() && fresh(e) && e.pid == pid && e.out == Payloads(pkts[..n], pid)
      invariant var cs := Counters(pkts[..n], pid);
                e.pidPackets == |cs| && e.continuity == LastOf(cs) && e.losses == LossesOf(cs)
      invariant e.extractedPackets == |Written(pkts[..n], pid)|
      invariant e.frameSize == |Payloads(pkts[FrameStart(pkts, n, pid)..n], pid)|
    {
      OnePacketMore(pkts, n, pid);
      WrittenNext(pkts, n, pid);
      FrameGrows(pkts, n, pid);
      e.Call(pkts[n]);
    }
    var k := FrameStart(pkts, |pkts|, pid);
    assert pkts[..|pkts|] == pkts && pkts[k..|pkts|] == pkts[k..];
  }

  lemma EmptyRun(pid: int)
    ensures Counters([], pid) == [] && Payloads([], pid) == [] && LossesOf([]) == [] && |Written([], pid)| == 0
  {
    assert Written([], pid) == {};
  }

  // ======== against the scanner ========

  /** Losses summed as the scanner counts them: fifteen means a repeat. */
  function SumOfLosses(ls: seq<int>): int {
    if ls == [] then 0 else
      var l := ls[|ls| - 1];
      SumOfLosses(ls[..|ls| - 1]) + if l == 15 then 0 else l
  }

  function CcsOf(t: seq<Info>): (ccs: seq<int>)
    requires AllInfo(t)
    ensures |ccs| == |t| && forall i :: 0 <= i < |t| ==> ccs[i] == t[i].cc
  {
    seq(|t|, i requires 0 <= i < |t| => t[i].cc)
  }

  lemma {:induction false} TraceLossesAgree(t: seq<Info>, n: nat)
    requires n <= |t| && AllInfo(t)
    requires forall i :: 0 <= i < |t| ==> !t[i].disc && 0 <= t[i].cc < 16
    ensures SumOfLosses(LossesOf(CcsOf(t)[..n])) == TraceLoss(t, n)
  {
    if n > 0 {
      hide ExtractorLoss, Losses, SumOfLosses, TraceLoss;
      TraceLossesAgree(t, n - 1);
      TraceLossNumbers(t, n);
      LossesNext(t, n);
      SumNext(LossesOf(CcsOf(t)[..n - 1]), if n == 1 then -1 else t[n - 2].cc, t[n - 1].cc);
    }
  }

  lemma LossesNext(t: seq<Info>, n: nat)
    requires 0 < n <= |t| && AllInfo(t)
    ensures LossesOf(CcsOf(t)[..n]) ==
              Losses(LossesOf(CcsOf(t)[..n - 1]), if n == 1 then -1 else t[n - 2].cc, t[n - 1].cc)
  {
    hide Losses;
    assert CcsOf(t)[..n][..n - 1] == CcsOf(t)[..n - 1];
  }

  lemma TraceLossNumbers(t: seq<Info>, n: nat)
    requires 0 < n <= |t| && AllInfo(t)
    requires forall i :: 0 <= i < |t| ==> !t[i].disc && 0 <= t[i].cc < 16
    ensures TraceLoss(t, n) ==
              if n == 1 then TraceLoss(t, 0)
              else var l := ExtractorLoss(t[n - 2].cc, t[n - 1].cc);
                   TraceLoss(t, n - 1) + if l != -1 && l != 15 then l else 0
  {
    if n > 1 {
      ChecksAgree(t[n - 2].cc, t[n - 1].cc);
    }
    hide ExtractorLoss, Jump;
  }

  lemma SumNext(ls: seq<int>, prev: int, cc: int)
    ensures var l := ExtractorLoss(prev, cc);
            SumOfLosses(Losses(ls, prev, cc)) ==
              SumOfLosses(ls) + if prev >= 0 && l != -1 && l != 15 then l else 0
  {
    hide ExtractorLoss;
    assert (ls + [ExtractorLoss(prev, cc)])[..|ls|] == ls;
  }

  function InfosOf(pkts: seq<seq<octet>>): (infos: seq<Info>)
    ensures |infos| == |pkts| && forall i :: 0 <= i < |pkts| ==> infos[i] == PacketInfo(pkts[i])
  {
    seq(|pkts|, i requires 0 <= i < |pkts| => PacketInfo(pkts[i]))
  }

  /** Every packet begins with a sync byte, and those of the PID carry payload and no
      discontinuity mark. */
  predicate PlainPid(pkts: seq<seq<octet>>, pid: int) {
    && Packets(pkts) && pid != NULL_PID
    && (forall i :: 0 <= i < |pkts| ==> pkts[i][0] == SYNC)
    && (forall i :: 0 <= i < |pkts| && PidOf(pkts[i]) == pid ==>
          HasPayload(AdaptationOf(pkts[i])) && !PacketInfo(pkts[i]).disc)
  }

  lemma PlainPacket(pkts: seq<seq<octet>>, k: nat, pid: int)
    requires PlainPid(pkts, pid) && k < |pkts|
    ensures var i, h := PacketInfo(pkts[k]), HeadOf(pkts[k]);
            && i.Info? && i.pid == h.pid && i.cc == h.cc && 0 <= i.cc < 16
            && (h.pid == pid ==> Counted(i) && !i.disc)
  {
  }

  lemma TraceNext(infos: seq<Info>, n: nat, pid: int)
    requires n < |infos|
    ensures var t, i := Trace(infos, n, pid), infos[n];
            Trace(infos, n + 1, pid) == if Counted(i) && i.pid == pid then t + [i] else t
  {
  }

  lemma CcsNext(t: seq<Info>, i: Info)
    requires AllInfo(t) && i.Info?
    ensures AllInfo(t + [i]) && CcsOf(t + [i]) == CcsOf(t) + [i.cc]
  {
  }

  /** The counters and marks of a trace, as the extractor sees them. */
  predicate Mirrors(t: seq<Info>, ccs: seq<int>) {
    && AllInfo(t) && (forall i :: 0 <= i < |t| ==> !t[i].disc && 0 <= t[i].cc < 16)
    && CcsOf(t) == ccs
  }

  lemma MirrorsNext(t: seq<Info>, ccs: seq<int>, i: Info)
    requires Mirrors(t, ccs) && i.Info? && !i.disc && 0 <= i.cc < 16
    ensures Mirrors(t + [i], ccs + [i.cc])
  {
    CcsNext(t, i);
    hide CcsOf;
  }

  lemma MirrorsNothing()
    ensures Mirrors([], [])
  {
  }

  lemma {:induction false} TraceCounters(pkts: seq<seq<octet>>, n: nat, pid: int)
    requires PlainPid(pkts, pid) && n <= |pkts|
    ensures Mirrors(Trace(InfosOf(pkts), n, pid), Counters(pkts[..n], pid))
  {
    if n == 0 {
      MirrorsNothing();
      assert pkts[..0] == [];
    } else {
      var k, i := n - 1, PacketInfo(pkts[n - 1]);
      PlainPacket(pkts, k, pid);
      hide PlainPid, Mirrors, Counters, Payloads, LossesOf, Trace, HeadOf, PacketInfo, Counted;
      TraceCounters(pkts, k, pid);
      OnePacketMore(pkts, k, pid);
      TraceNext(InfosOf(pkts), k, pid);
      if i.pid == pid {
        MirrorsNext(Trace(InfosOf(pkts), k, pid), Counters(pkts[..k], pid), i);
      }
    }
  }

  /** On files in which all packets of the PID carry payload and no discontinuity mark, the
      numbers a run of the extractor prints add up to the LOST values of the scanner. */
  lemma ExtractorCountsLikeScanner(pkts: seq<seq<octet>>, pid: int)
    requires PlainPid(pkts, pid)
    ensures SumOfLosses(LossesOf(Counters(pkts, pid))) == LostSum(ScanTo(InfosOf(pkts), |pkts|).reports, pid)
  {
    var infos := InfosOf(pkts);
    var t := Trace(infos, |pkts|, pid);
    TraceCounters(pkts, |pkts|, pid);
    ScanIsPerPid(infos, |pkts|, pid);
    TraceLossesAgree(t, |t|);
    hide Trace, Counters, LossesOf, LostSum, TraceLoss;
    assert pkts[..|pkts|] == pkts && CcsOf(t)[..|t|] == CcsOf(t);
  }
}
