/** Which lines the continuity scan prints: one for each jump between two payload packets
    of a PID that follow one another, in file order. */
module TsJumps {
  import opened Basics
  import opened TsContinuity

  /** Packets m and n carry payload of one PID and none between them does. */
  predicate Successive(infos: seq<Info>, m: nat, n: nat) {
    && m < n < |infos| && Counted(infos[m]) && Counted(infos[n]) && infos[m].pid == infos[n].pid
    && forall k :: m < k < n ==> !(Counted(infos[k]) && infos[k].pid == infos[n].pid)
  }

  predicate Jumps(infos: seq<Info>, m: nat, n: nat) {
    Successive(infos, m, n) && !infos[n].disc && infos[n].cc != (infos[m].cc + 1) % 16
  }

  /** The line printed for a jump. */
  function Line(infos: seq<Info>, m: nat, n: nat): Report
    requires Jumps(infos, m, n)
  {
    Report(n, infos[n].pid, infos[m].cc, infos[n].cc, Jump(infos[m].cc, infos[n].cc))
  }

  /** A counter that stands still is a repeat; any other jump names the number missing. */
  lemma JumpIs(prev: int, cc: int)
    requires 0 <= prev < 16 && 0 <= cc < 16
    ensures Jump(prev, cc) == Dup <==> cc == prev
    ensures cc != prev ==> Jump(prev, cc).Lost? && (prev + 1 + Jump(prev, cc).count) % 16 == cc
    ensures cc != prev ==> 0 <= Jump(prev, cc).count < 15
  {
  }

  /** The last of the first n packets with payload of a PID, or -1. */
  function Latest(infos: seq<Info>, n: nat, pid: int): (m: int)
    requires n <= |infos|
    ensures -1 <= m < n && (m >= 0 ==> Counted(infos[m]) && infos[m].pid == pid)
    ensures forall k :: m < k < n ==> !(Counted(infos[k]) && infos[k].pid == pid)
  {
    if n == 0 then -1
    else if Counted(infos[n - 1]) && infos[n - 1].pid == pid then n - 1
    else Latest(infos, n - 1, pid)
  }

  lemma LatestIsSuccessive(infos: seq<Info>, m: nat, n: nat)
    requires n < |infos| && Counted(infos[n])
    ensures Successive(infos, m, n) <==> m == Latest(infos, n, infos[n].pid)
  {
    hide Counted;
  }

  lemma {:induction false} LastIsLatest(infos: seq<Info>, n: nat, pid: int)
    requires n <= |infos|
    ensures var s, m := ScanTo(infos, n), Latest(infos, n, pid);
            (pid in s.last <==> m >= 0) && (m >= 0 ==> s.last[pid] == infos[m].cc)
  {
    if n > 0 {
      LastIsLatest(infos, n - 1, pid);
      hide Jump, Counted;
    }
  }

  /** What the n-th packet adds. */
  lemma StepPrints(infos: seq<Info>, n: nat, m: int)
    requires n < |infos| && m == if Counted(infos[n]) then Latest(infos, n, infos[n].pid) else -1
    ensures ScanTo(infos, n + 1).reports ==
              ScanTo(infos, n).reports + if m >= 0 && Jumps(infos, m, n) then [Line(infos, m, n)] else []
  {
    var i := infos[n];
    if Counted(i) {
      LastIsLatest(infos, n, i.pid);
      if m >= 0 {
        LatestIsSuccessive(infos, m, n);
      }
    }
    var s := ScanTo(infos, n);
    assert ScanTo(infos, n + 1) == ScanStep(s, n, i);
    hide ScanTo, Latest, Jump, Counted;
    assert s.reports + [] == s.reports;
  }

  ghost predicate IsLine(infos: seq<Info>, r: Report) {
    exists m: nat :: Jumps(infos, m, r.packet) && r == Line(infos, m, r.packet)
  }

  /** The lines are those of the jumps, each once, in the order of the packets. */
  ghost predicate Prints(infos: seq<Info>, n: nat, rs: seq<Report>)
    requires n <= |infos|
  {
    && (forall k :: 0 <= k < |rs| ==> rs[k].packet < n)
    && (forall j, k :: 0 <= j < k < |rs| ==> rs[j].packet < rs[k].packet)
    && (forall k :: 0 <= k < |rs| ==> IsLine(infos, rs[k]))
    && (forall m: nat, k: nat :: k < n && Jumps(infos, m, k) ==> Line(infos, m, k) in rs)
  }

  lemma PrintsMore(infos: seq<Info>, n: nat, rs: seq<Report>, m: nat)
    requires n < |infos| && Prints(infos, n, rs) && Jumps(infos, m, n)
    requires forall j: nat :: Jumps(infos, j, n) ==> j == m
    ensures Prints(infos, n + 1, rs + [Line(infos, m, n)])
  {
    var line := Line(infos, m, n);
    var qs := rs + [line];
    hide Jumps, Jump;
    assert IsLine(infos, line) by {
      assert Jumps(infos, m, line.packet);
    }
    forall j: nat, k: nat | k < n + 1 && Jumps(infos, j, k)
      ensures Line(infos, j, k) in qs
    {
      assert line in qs;
      if k < n {
        assert Line(infos, j, k) in rs;
      }
    }
  }

  lemma PrintsSame(infos: seq<Info>, n: nat, rs: seq<Report>)
    requires n < |infos| && Prints(infos, n, rs)
    requires forall j: nat :: !Jumps(infos, j, n)
    ensures Prints(infos, n + 1, rs)
  {
    hide Jumps, Jump, IsLine;
  }

  lemma {:induction false} ScanPrintsJumps(infos: seq<Info>, n: nat)
    requires n <= |infos|
    ensures Prints(infos, n, ScanTo(infos, n).reports)
  {
    if n > 0 {
      var k := n - 1;
      ScanPrintsJumps(infos, k);
      var m := if Counted(infos[k]) then Latest(infos, k, infos[k].pid) else -1;
      StepPrints(infos, k, m);
      OnlyLatestJumps(infos, k, m);
      var rs := ScanTo(infos, k).reports;
      hide ScanTo, Latest, Jumps, Prints, Line, Jump;
      if m >= 0 && Jumps(infos, m, k) {
        PrintsMore(infos, k, rs, m);
      } else {
        PrintsSame(infos, k, rs);
        assert rs + [] == rs;
      }
    }
  }

  lemma OnlyLatestJumps(infos: seq<Info>, n: nat, m: int)
    requires n < |infos| && m == if Counted(infos[n]) then Latest(infos, n, infos[n].pid) else -1
    ensures forall j: nat :: Jumps(infos, j, n) ==> j == m
  {
    forall j: nat | Jumps(infos, j, n)
      ensures j == m
    {
      LatestIsSuccessive(infos, j, n);
    }
  }
}
