/** Continuity counters of a transport stream: the per-PID scan, the losses it reports,
    and when they are the packets actually missing. */
module TsContinuity {
  import opened Basics
  import opened TsPacket

  const NULL_PID: int := 0x1FFF

  /** Header fields of a packet: PID, adaptation field control, counter, discontinuity. */
  datatype Info = NotTs | Info(pid: int, afc: int, cc: int, disc: bool)

  function PacketInfo(pkt: seq<octet>): (r: Info)
    ensures r.Info? ==> 0 <= r.pid < 8192 && 0 <= r.afc < 4 && 0 <= r.cc < 16
  {
    if |pkt| != TS_SIZE || pkt[0] != SYNC then NotTs
    else
      var afc := AdaptationOf(pkt);
      Info(PidOf(pkt), afc, CounterOf(pkt), (afc == 2 || afc == 3) && pkt[4] != 0 && pkt[5] / 128 % 2 == 1)
  }

  predicate HasPayload(afc: int) {
    afc == 1 || afc == 3
  }

  /** A counter jump the scan prints: a repeated packet or a number of lost ones. */
  datatype Status = Dup | Lost(count: int)

  datatype Report = Report(packet: nat, pid: int, prev: int, cc: int, status: Status)

  /** What the scan remembers: the last counter of each PID, and what it has printed. */
  datatype Scan = Scan(last: map<int, int>, reports: seq<Report>)

  function Jump(prev: int, cc: int): Status
  {
    var delta := (cc - (prev + 1) % 16) % 16;
    if delta == 15 then Dup else Lost(delta)
  }

  predicate Counted(i: Info) {
    i.Info? && i.pid != NULL_PID && HasPayload(i.afc)
  }

  function ScanStep(s: Scan, n: nat, i: Info): Scan {
    if !Counted(i) then s
    else
      var prev := if i.pid in s.last then s.last[i.pid] else i.cc;
      var wrong := i.pid in s.last && !i.disc && i.cc != (prev + 1) % 16;
      Scan(s.last[i.pid := i.cc],
           if wrong then s.reports + [Report(n, i.pid, prev, i.cc, Jump(prev, i.cc))] else s.reports)
  }

  /** The scan over the first n packets. */
  function ScanTo(infos: seq<Info>, n: nat): Scan
    requires n <= |infos|
  {
    if n == 0 then Scan(map[], []) else ScanStep(ScanTo(infos, n - 1), n - 1, infos[n - 1])
  }

  function Infos(data: seq<octet>, n: nat): (r: seq<Info>)
    requires n * TS_SIZE <= |data|
    ensures |r| == n
  {
    if n == 0 then [] else Infos(data, n - 1) + [PacketInfo(data[(n - 1) * TS_SIZE..n * TS_SIZE])]
  }

  lemma {:induction false} InfosAt(data: seq<octet>, n: nat, k: nat)
    requires n * TS_SIZE <= |data| && k < n
    ensures Infos(data, n)[k] == PacketInfo(data[k * TS_SIZE..(k + 1) * TS_SIZE])
  {
    if k < n - 1 {
      InfosAt(data, n - 1, k);
    }
  }

  /** The scan loop over a file: whole packets only; a torn packet at the end stops it. */
  method ScanFile(data: seq<octet>) returns (errors: nat, reports: seq<Report>)
    ensures reports == ScanTo(Infos(data, |data| / TS_SIZE), |data| / TS_SIZE).reports && errors == |reports|
  {
    var last: map<int, int> := map[];
    errors, reports := 0, [];
    ghost var infos := Infos(data, |data| / TS_SIZE);
    var packet := 0;
    while packet * TS_SIZE < |data|
      invariant packet <= |infos|
      invariant Scan(last, reports) == ScanTo(infos, packet) && errors == |reports|
      decreases |data| - packet * TS_SIZE
    {
      var offset := packet * TS_SIZE;
      var end := if offset + TS_SIZE <= |data| then offset + TS_SIZE else |data|;
      var pkt := data[offset..end];
      if |pkt| != TS_SIZE {
        break;
      }
      InfosAt(data, |infos|, packet);
      var info := PacketInfo(pkt);
      if info.Info? && info.pid != NULL_PID && HasPayload(info.afc) {
        if info.pid in last && !info.disc {
          var prev := last[info.pid];
          var expected := (prev + 1) % 16;
          if info.cc != expected {
            var delta := (info.cc - expected) % 16;
            var status := if delta == 15 then Dup else Lost(delta);
            reports := reports + [Report(packet, info.pid, prev, info.cc, status)];
            errors := errors + 1;
          }
        }
        last := last[info.pid := info.cc];
      }
      packet := packet + 1;
    }
  }

  // ======== one PID ========

  /** The payload packets of one PID. */
  function Trace(infos: seq<Info>, n: nat, pid: int): seq<Info>
    requires n <= |infos|
  {
    if n == 0 then [] else
      Trace(infos, n - 1, pid) + if Counted(infos[n - 1]) && infos[n - 1].pid == pid then [infos[n - 1]] else []
  }

  function LostCount(s: Status): int {
    match s case Dup => 0 case Lost(c) => c
  }

  /** The sum of the LOST values printed for a PID. */
  function LostSum(reports: seq<Report>, pid: int): int {
    if reports == [] then 0 else
      var r := reports[|reports| - 1];
      LostSum(reports[..|reports| - 1], pid) + if r.pid == pid then LostCount(r.status) else 0
  }

  /** The loss seen between two consecutive packets of a PID. */
  function StepLoss(a: Info, b: Info): int
    requires a.Info? && b.Info?
  {
    if b.disc || b.cc == (a.cc + 1) % 16 then 0 else LostCount(Jump(a.cc, b.cc))
  }

  predicate AllInfo(t: seq<Info>) {
    forall i :: 0 <= i < |t| ==> t[i].Info?
  }

  function TraceLoss(t: seq<Info>, n: nat): int
    requires n <= |t| && AllInfo(t)
  {
    if n <= 1 then 0 else TraceLoss(t, n - 1) + StepLoss(t[n - 2], t[n - 1])
  }

  lemma {:induction false} TraceLossPrefix(t: seq<Info>, u: seq<Info>, n: nat)
    requires n <= |t| && n <= |u| && AllInfo(t) && AllInfo(u) && t[..n] == u[..n]
    ensures TraceLoss(t, n) == TraceLoss(u, n)
  {
    if n > 1 {
      assert t[n - 1] == t[..n][n - 1] == u[n - 1] && t[n - 2] == t[..n][n - 2] == u[n - 2];
      assert t[..n - 1] == t[..n][..n - 1] == u[..n - 1];
      TraceLossPrefix(t, u, n - 1);
    }
  }

  /** What the scan remembers of one PID after n packets. */
  predicate PerPid(infos: seq<Info>, n: nat, pid: int)
    requires n <= |infos|
  {
    var s := ScanTo(infos, n);
    var t := Trace(infos, n, pid);
    && AllInfo(t)
    && (pid in s.last <==> t != [])
    && (t != [] ==> s.last[pid] == t[|t| - 1].cc)
    && LostSum(s.reports, pid) == TraceLoss(t, |t|)
  }

  lemma LostSumNext(rs: seq<Report>, r: Report, pid: int)
    ensures LostSum(rs + [r], pid) == LostSum(rs, pid) + if r.pid == pid then LostCount(r.status) else 0
  {
    assert (rs + [r])[..|rs|] == rs;
  }

  lemma TraceLossNext(t: seq<Info>, i: Info)
    requires AllInfo(t) && i.Info?
    ensures AllInfo(t + [i])
    ensures TraceLoss(t + [i], |t| + 1) == TraceLoss(t, |t|) + if t == [] then 0 else StepLoss(t[|t| - 1], i)
  {
    hide StepLoss;
    var u := t + [i];
    assert u[..|t|] == t == t[..|t|];
    TraceLossPrefix(t, u, |t|);
  }

  lemma PerPidStep(s: Scan, n: nat, i: Info, t: seq<Info>, pid: int)
    requires AllInfo(t) && (pid in s.last <==> t != []) && (t != [] ==> s.last[pid] == t[|t| - 1].cc)
    requires LostSum(s.reports, pid) == TraceLoss(t, |t|) && Counted(i)
    ensures var e := ScanStep(s, n, i); var u := if i.pid == pid then t + [i] else t;
            && AllInfo(u) && (pid in e.last <==> u != []) && (u != [] ==> e.last[pid] == u[|u| - 1].cc)
            && LostSum(e.reports, pid) == TraceLoss(u, |u|)
  {
    hide Jump, LostSum, TraceLoss;
    var prev := if i.pid in s.last then s.last[i.pid] else i.cc;
    LostSumNext(s.reports, Report(n, i.pid, prev, i.cc, Jump(prev, i.cc)), pid);
    TraceLossNext(t, i);
  }

  /** However the PIDs interleave, what the scan prints for one of them depends on that
      PID's own payload packets alone. */
  lemma {:induction false} ScanIsPerPid(infos: seq<Info>, n: nat, pid: int)
    requires n <= |infos|
    ensures PerPid(infos, n, pid)
  {
    if n > 0 {
      ScanIsPerPid(infos, n - 1, pid);
      var s, t, i := ScanTo(infos, n - 1), Trace(infos, n - 1, pid), infos[n - 1];
      assert t + [] == t;
      if Counted(i) {
        PerPidStep(s, n - 1, i, t, pid);
      } else {
        assert ScanStep(s, n - 1, i) == s;
      }
      hide LostSum, TraceLoss, Jump, ScanStep, Counted;
      assert ScanTo(infos, n) == ScanStep(s, n - 1, i);
    }
  }

  // ======== exactness ========

  /** Packets missing between two values of the sender's unbounded counter. */
  function Gap(a: nat, b: nat): nat {
    if b > a then b - a - 1 else 0
  }

  /** Packets missing over a trace, not counting marked discontinuities. */
  function Missing(t: seq<Info>, c: seq<nat>, n: nat): nat
    requires n <= |t| == |c| && AllInfo(t)
  {
    if n <= 1 then 0 else Missing(t, c, n - 1) + if t[n - 1].disc then 0 else Gap(c[n - 2], c[n - 1])
  }

  /** The trace carries the sender's counter modulo 16; the counter never runs backwards. */
  predicate Carries(t: seq<Info>, c: seq<nat>) {
    && |t| == |c| && AllInfo(t)
    && (forall i :: 0 <= i < |t| ==> t[i].cc == c[i] % 16)
    && (forall i :: 0 < i < |c| ==> c[i - 1] <= c[i])
  }

  /** No unmarked gap reaches fifteen packets. */
  predicate SmallGaps(t: seq<Info>, c: seq<nat>, n: nat)
    requires n <= |t| == |c| && AllInfo(t)
  {
    forall i :: 0 < i < n ==> t[i].disc || Gap(c[i - 1], c[i]) <= 14
  }

  lemma Remainders(x: nat, y: nat)
    ensures y - x == 16 * (y / 16 - x / 16) + (y % 16 - x % 16)
    ensures (y - x + 15) % 16 == (y % 16 - x % 16 + 15) % 16
    ensures (y - x) % 16 == (y % 16 - x % 16) % 16
  {
    var k, r := y / 16 - x / 16, y % 16 - x % 16;
    assert y - x == 16 * k + r;
  }

  lemma CountersApart(x: nat, y: nat)
    requires x <= y
    ensures (y % 16 - (x % 16 + 1) % 16) % 16 == (y - x + 15) % 16
    ensures y % 16 == (x % 16 + 1) % 16 <==> (y - x) % 16 == 1
  {
    Remainders(x, y);
    SmallCounters(x % 16, y % 16);
  }

  lemma SmallCounters(a: nat, b: nat)
    requires a < 16 && b < 16
    ensures (b - (a + 1) % 16) % 16 == (b - a + 15) % 16
    ensures b == (a + 1) % 16 <==> (b - a) % 16 == 1
  {
  }

  lemma StepLossExact(a: Info, b: Info, x: nat, y: nat)
    requires a.Info? && b.Info? && a.cc == x % 16 && b.cc == y % 16 && x <= y && !b.disc
    ensures 0 <= StepLoss(a, b) <= Gap(x, y) && (StepLoss(a, b) == Gap(x, y) <==> Gap(x, y) <= 14)
  {
    CountersApart(x, y);
    var g := y - x;
    assert StepLoss(a, b) == if g % 16 == 1 || (g + 15) % 16 == 15 then 0 else (g + 15) % 16;
    hide StepLoss, Jump;
    if g > 16 {
      assert (g + 15) % 16 < 16 <= g - 1;
    }
  }

  lemma {:induction false} LossExact(t: seq<Info>, c: seq<nat>, n: nat)
    requires Carries(t, c) && n <= |t|
    ensures 0 <= TraceLoss(t, n) <= Missing(t, c, n)
    ensures TraceLoss(t, n) == Missing(t, c, n) <==> SmallGaps(t, c, n)
  {
    if n > 1 {
      LossExact(t, c, n - 1);
      if !t[n - 1].disc {
        StepLossExact(t[n - 2], t[n - 1], c[n - 2], c[n - 1]);
      }
      assert SmallGaps(t, c, n) <==> SmallGaps(t, c, n - 1) && (t[n - 1].disc || Gap(c[n - 2], c[n - 1]) <= 14);
    }
  }

  /** Loss accounting is exact if and only if no gap is longer than fourteen packets: the
      LOST values of a PID sum to the packets missing between its first and last one. */
  lemma LostIsMissing(infos: seq<Info>, pid: int, c: seq<nat>)
    requires Carries(Trace(infos, |infos|, pid), c)
    ensures var t := Trace(infos, |infos|, pid); var lost := LostSum(ScanTo(infos, |infos|).reports, pid);
            lost <= Missing(t, c, |t|) && (lost == Missing(t, c, |t|) <==> SmallGaps(t, c, |t|))
  {
    ScanIsPerPid(infos, |infos|, pid);
    LossExact(Trace(infos, |infos|, pid), c, |c|);
  }

  /** Fifteen packets missing look like a repeated packet, sixteen like a sound stream: in
      neither case is anything reported as lost. */
  lemma LongGapsAreMissed(gap: nat)
    requires gap == 15 || gap == 16
    ensures var infos := [Info(256, 1, 0, false), Info(256, 1, gap - 15, false)]; var c := [0, gap + 1];
            && Trace(infos, 2, 256) == infos && Carries(infos, c) && !SmallGaps(infos, c, 2)
            && Missing(infos, c, 2) == gap && LostSum(ScanTo(infos, 2).reports, 256) == 0
  {
    var a, b := Info(256, 1, 0, false), Info(256, 1, gap - 15, false);
    ShortTrace([a, b]);
    TwoPackets(a, b);
    NothingLost(a, b);
    hide ScanTo, LostSum, StepLoss, Trace;
    TwoCounters(a, b, gap);
  }

  /** What is reported for two payload packets of a PID is the loss between them. */
  lemma TwoPackets(a: Info, b: Info)
    requires Counted(a) && Counted(b) && a.pid == b.pid
    ensures LostSum(ScanTo([a, b], 2).reports, a.pid) == StepLoss(a, b)
  {
    ShortTrace([a, b]);
    ScanIsPerPid([a, b], 2, a.pid);
    hide ScanTo, LostSum, StepLoss, Trace;
    assert TraceLoss([a, b], 1) == 0;
  }

  lemma NothingLost(a: Info, b: Info)
    requires a.Info? && b.Info? && a.cc == 0 && 0 <= b.cc <= 1
    ensures StepLoss(a, b) == 0
  {
  }

  lemma TwoCounters(a: Info, b: Info, gap: nat)
    requires a.Info? && b.Info? && !b.disc && a.cc == 0 && b.cc == gap - 15 && 15 <= gap <= 16
    ensures var t, c := [a, b], [0, gap + 1]; Carries(t, c) && !SmallGaps(t, c, 2) && Missing(t, c, 2) == gap
  {
    var t, c := [a, b], [0, gap + 1];
    assert Gap(c[0], c[1]) == gap;
    assert Missing(t, c, 1) == 0;
  }

  lemma ShortTrace(infos: seq<Info>)
    requires |infos| == 2 && Counted(infos[0]) && Counted(infos[1]) && infos[0].pid == infos[1].pid
    ensures Trace(infos, 2, infos[0].pid) == infos
  {
    assert Trace(infos, 1, infos[0].pid) == [infos[0]];
  }

  lemma {:induction false} MissingTelescopes(t: seq<Info>, c: seq<nat>, n: nat)
    requires Carries(t, c) && 1 <= n <= |t|
    requires forall i :: 0 < i < n ==> !t[i].disc && c[i - 1] < c[i]
    ensures Missing(t, c, n) + n + c[0] == c[n - 1] + 1
  {
    if n > 1 {
      MissingTelescopes(t, c, n - 1);
    }
  }

  /** Without marks and repeats, received plus lost is the range of the sender's counter. */
  lemma ReceivedPlusLost(infos: seq<Info>, pid: int, c: seq<nat>)
    requires Carries(Trace(infos, |infos|, pid), c) && c != []
    requires var t := Trace(infos, |infos|, pid);
             forall i :: 0 < i < |t| ==> !t[i].disc && c[i - 1] < c[i] <= c[i - 1] + 15
    ensures LostSum(ScanTo(infos, |infos|).reports, pid) + |c| + c[0] == c[|c| - 1] + 1
  {
    LostIsMissing(infos, pid, c);
    MissingTelescopes(Trace(infos, |infos|, pid), c, |c|);
  }

  // ======== the extractor's check ========

  /** The number check_continuity prints, -1 for none. */
  function ExtractorLoss(prev: int, cc: int): int {
    if (prev + 1) % 16 != cc then
      var lost := cc - prev - 1;
      if lost < 0 then lost + 16 else lost
    else -1
  }

  /** The two programs complain about the same jumps and print the same number, except
      that the scanner calls fifteen lost packets a repeat. */
  lemma ChecksAgree(prev: int, cc: int)
    requires 0 <= prev < 16 && 0 <= cc < 16
    ensures ExtractorLoss(prev, cc) == -1 <==> cc == (prev + 1) % 16
    ensures cc != (prev + 1) % 16 ==>
              Jump(prev, cc) == if ExtractorLoss(prev, cc) == 15 then Dup else Lost(ExtractorLoss(prev, cc))
  {
  }
}
