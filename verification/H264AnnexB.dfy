/** Joining NAL units with start codes and cutting them out again: exactly which NAL
    lists survive the round trip. */
module H264AnnexB {
  import opened Basics
  import opened H264StartCodes

  /** A NAL unit behind a four-byte (long) or three-byte start code. */
  datatype Unit = Unit(long: bool, nal: seq<byte>)

  function Prefix(long: bool): (s: seq<byte>)
    ensures |s| == (if long then 4 else 3)
  {
    if long then [0, 0, 0, 1] else [0, 0, 1]
  }

  function Join(us: seq<Unit>): seq<byte> {
    if us == [] then [] else Prefix(us[0].long) + us[0].nal + Join(us[1..])
  }

  function NalsOf(us: seq<Unit>): seq<seq<byte>> {
    if us == [] then [] else [us[0].nal] + NalsOf(us[1..])
  }

  /** A NAL that the scanner leaves in one piece.  Inside a stream it must not contain
      00 00 01, nor end in 00 before a three-byte code; the last NAL may do either where
      the scanner no longer looks. */
  predicate KeptWhole(us: seq<Unit>)
    requires us != []
  {
    var nal := us[0].nal;
    if |us| == 1 then forall p :: 0 <= p < |nal| ==> !Seen(nal, p)
    else
      && (forall p :: 0 <= p < |nal| ==> !At3(nal, p))
      && (!us[1].long && nal != [] ==> nal[|nal| - 1] != 0)
  }

  predicate Survives(us: seq<Unit>) {
    us == [] || (us[0].nal != [] && KeptWhole(us) && Survives(us[1..]))
  }

  // ======== one unit in its place ========

  /** d holds the units us from position a on, a being where the first NAL begins. */
  predicate Placed(d: seq<byte>, a: nat, us: seq<Unit>) {
    us != [] && a <= |d| && d[a..] == us[0].nal + Join(us[1..])
  }

  lemma FirstBytes(us: seq<Unit>)
    requires us != []
    ensures var d := Join(us); var n := if us[0].long then 4 else 3;
            Placed(d, n, us) && d[..n] == Prefix(us[0].long)
  {
    CutFirst(Prefix(us[0].long), us[0].nal, Join(us[1..]));
  }

  lemma CutFirst(c: seq<byte>, nal: seq<byte>, t: seq<byte>)
    ensures c + nal + t == c + (nal + t) && (c + nal + t)[..|c|] == c && (c + nal + t)[|c|..] == nal + t
  {
    assert c + nal + t == c + (nal + t);
  }

  lemma PlacedNext(d: seq<byte>, a: nat, us: seq<Unit>)
    requires Placed(d, a, us) && |us| > 1
    ensures var e := a + |us[0].nal|; var n := if us[1].long then 4 else 3;
            && e + n <= |d| && d[e..e + n] == Prefix(us[1].long)
            && Placed(d, e + n, us[1..])
  {
    assert us[1..][1..] == us[2..];
    CutFirst(Prefix(us[1].long), us[1].nal, Join(us[2..]));
    TailBehind(d, a, us[0].nal, Join(us[1..]));
    TailBehind(d, a + |us[0].nal|, Prefix(us[1].long), us[1].nal + Join(us[2..]));
  }

  lemma TailBehind(d: seq<byte>, a: nat, x: seq<byte>, y: seq<byte>)
    requires a <= |d| && d[a..] == x + y
    ensures a + |x| <= |d| && d[a..a + |x|] == x && d[a + |x|..] == y
  {
    assert |d[a..]| == |x| + |y|;
    assert d[a..a + |x|] == d[a..][..|x|];
    assert d[a + |x|..] == d[a..][|x|..];
  }

  lemma PlacedBytes(d: seq<byte>, a: nat, us: seq<Unit>, p: nat)
    requires Placed(d, a, us) && p < |us[0].nal|
    ensures a + p < |d| && d[a + p] == us[0].nal[p]
  {
    assert d[a..][p] == us[0].nal[p];
  }

  /** The levels of the next code, read off the stream. */
  lemma CodeBytes(d: seq<byte>, a: nat, us: seq<Unit>)
    requires Placed(d, a, us) && |us| > 1
    ensures var e := a + |us[0].nal|;
            && e + (if us[1].long then 4 else 3) <= |d| && d[e] == 0 && d[e + 1] == 0
            && (us[1].long ==> At4(d, e) && !At3(d, e)) && (!us[1].long ==> At3(d, e))
  {
    PlacedNext(d, a, us);
    var e := a + |us[0].nal|;
    var n := if us[1].long then 4 else 3;
    var c := d[e..e + n];
    assert c[0] == d[e] && c[1] == d[e + 1] && c[2] == d[e + 2];
    assert us[1].long ==> c[3] == d[e + 3];
  }

  predicate SeenBetween(d: seq<byte>, i: nat, e: nat) {
    exists p :: i <= p < e && Seen(d, p)
  }

  lemma SeenBetweenStep(d: seq<byte>, i: nat, e: nat)
    ensures SeenBetween(d, i, e) <==> i < e && (Seen(d, i) || SeenBetween(d, i + 1, e))
  {
    assert i < e && SeenBetween(d, i, e) && !Seen(d, i) ==> SeenBetween(d, i + 1, e);
  }

  /** Whether the scanner stops inside a NAL can be told from the NAL and its neighbour. */
  lemma SeenInside(d: seq<byte>, a: nat, us: seq<Unit>)
    requires Placed(d, a, us)
    ensures KeptWhole(us) <==> forall p :: a <= p < a + |us[0].nal| ==> !Seen(d, p)
  {
    var nal := us[0].nal;
    var e := a + |nal|;
    forall p | 0 <= p < |nal|
      ensures d[a + p] == nal[p]
    {
      PlacedBytes(d, a, us, p);
    }
    if |us| == 1 {
      assert d[a..] == nal;
      forall p | 0 <= p < |nal|
        ensures Seen(d, a + p) <==> Seen(nal, p)
      {
      }
      if KeptWhole(us) {
        forall p | a <= p < e
          ensures !Seen(d, p)
        {
          assert !Seen(nal, p - a);
        }
      }
    } else {
      CodeBytes(d, a, us);
      forall p | 0 <= p < |nal|
        ensures Seen(d, a + p) <==> At3(nal, p) || At4(nal, p) || (p == |nal| - 1 && nal[p] == 0 && !us[1].long)
      {
        SeenNearCode(d, a, us, p);
      }
      if KeptWhole(us) {
        forall p | a <= p < e
          ensures !Seen(d, p)
        {
          assert !At3(nal, p - a) && (p - a + 1 < |nal| ==> !At3(nal, p - a + 1));
        }
      } else {
        if nal != [] && nal[|nal| - 1] == 0 && !us[1].long {
          assert Seen(d, a + (|nal| - 1));
        } else {
          var p :| 0 <= p < |nal| && At3(nal, p);
          assert Seen(d, a + p);
        }
      }
    }
  }

  lemma SeenNearCode(d: seq<byte>, a: nat, us: seq<Unit>, p: nat)
    requires Placed(d, a, us) && |us| > 1 && p < |us[0].nal|
    requires forall q :: 0 <= q < |us[0].nal| ==> a + q < |d| && d[a + q] == us[0].nal[q]
    ensures var nal := us[0].nal;
            Seen(d, a + p) <==> At3(nal, p) || At4(nal, p) || (p == |nal| - 1 && nal[p] == 0 && !us[1].long)
  {
    CodeBytes(d, a, us);
  }

  // ======== what is kept ========

  function TotalNal(us: seq<Unit>): nat {
    if us == [] then 0 else |us[0].nal| + TotalNal(us[1..])
  }

  function TotalBytes(nals: seq<seq<byte>>): nat {
    if nals == [] then 0 else |nals[0]| + TotalBytes(nals[1..])
  }

  lemma {:induction false} TotalsAgree(us: seq<Unit>)
    ensures TotalBytes(NalsOf(us)) == TotalNal(us)
  {
    if us != [] {
      TotalsAgree(us[1..]);
      assert NalsOf(us)[1..] == NalsOf(us[1..]);
    }
  }

  /** Bytes that end up in some NAL when one began at s and the scan stands at i. */
  function Kept(d: seq<byte>, s: nat, i: nat): int
    decreases |d| - i
  {
    if i + 3 >= |d| then |d| - s
    else if Seen(d, i) then
      var n := i + CodeAt(d, i).len;
      (i - s) + Kept(d, n, n)
    else Kept(d, s, i + 1)
  }

  lemma TotalStep(d: seq<byte>, cs: seq<Code>, k: nat)
    requires k < |cs|
    ensures TotalBytes(NalsFrom(d, cs, k)) == |Nal(d, cs, k)| + TotalBytes(NalsFrom(d, cs, k + 1))
  {
    hide Nal;
    var nal, rest := Nal(d, cs, k), NalsFrom(d, cs, k + 1);
    assert NalsFrom(d, cs, k) == Reported(nal) + rest;
    if nal == [] {
      assert Reported(nal) + rest == rest;
    } else {
      assert (Reported(nal) + rest)[1..] == rest;
    }
  }

  lemma KeptStep(d: seq<byte>, s: nat, i: nat)
    ensures i + 3 >= |d| ==> Kept(d, s, i) == |d| - s
    ensures i + 3 < |d| && Seen(d, i) ==>
              Kept(d, s, i) == i - s + Kept(d, i + CodeAt(d, i).len, i + CodeAt(d, i).len)
    ensures i + 3 < |d| && !Seen(d, i) ==> Kept(d, s, i) == Kept(d, s, i + 1)
  {
  }

  lemma UnitsStep(us: seq<Unit>)
    ensures us == [] ==> TotalNal(us) == 0 && Survives(us)
    ensures us != [] ==> TotalNal(us) == |us[0].nal| + TotalNal(us[1..])
    ensures us != [] && us[0].nal != [] ==> (Survives(us) <==> KeptWhole(us) && Survives(us[1..]))
  {
  }

  lemma NextCode(cs: seq<Code>, k: nat, c: Code, rest: seq<Code>)
    requires k < |cs| && cs[k + 1..] == [c] + rest
    ensures k + 1 < |cs| && cs[k + 1] == c && cs[k + 2..] == rest
  {
    assert cs[k + 1] == cs[k + 1..][0];
    assert cs[k + 2..] == cs[k + 1..][1..];
  }

  lemma TotalAtEnd(d: seq<byte>, cs: seq<Code>, k: nat)
    requires k + 1 == |cs| && NalStart(cs, k) <= |d|
    ensures TotalBytes(NalsFrom(d, cs, k)) == |d| - NalStart(cs, k)
  {
    TotalStep(d, cs, k);
  }

  lemma TotalAtCode(d: seq<byte>, cs: seq<Code>, k: nat)
    requires k + 1 < |cs| && NalStart(cs, k) <= cs[k + 1].pos <= |d|
    ensures TotalBytes(NalsFrom(d, cs, k)) == cs[k + 1].pos - NalStart(cs, k) + TotalBytes(NalsFrom(d, cs, k + 1))
  {
    TotalStep(d, cs, k);
  }

  /** The length of the NALs cut out is what the scan keeps. */
  lemma {:induction false} KeptIsTotal(d: seq<byte>, cs: seq<Code>, k: nat, i: nat)
    requires k < |cs| && NalStart(cs, k) <= i <= |d| && cs[k + 1..] == Codes(d, i)
    ensures TotalBytes(NalsFrom(d, cs, k)) == Kept(d, NalStart(cs, k), i)
    decreases |d| - i
  {
    KeptStep(d, NalStart(cs, k), i);
    if i + 3 >= |d| {
      assert |cs[k + 1..]| == 0;
      TotalAtEnd(d, cs, k);
    } else if Seen(d, i) {
      var c := CodeAt(d, i);
      NextCode(cs, k, c, Codes(d, i + c.len));
      TotalAtCode(d, cs, k);
      hide Codes, Kept, TotalBytes, NalsFrom;
      KeptIsTotal(d, cs, k + 1, i + c.len);
    } else {
      hide Codes, Kept, TotalBytes, NalsFrom;
      KeptIsTotal(d, cs, k, i + 1);
    }
  }

  /** At the true code behind a NAL the scan resumes with the next NAL. */
  lemma ResumesBehindCode(d: seq<byte>, a: nat, us: seq<Unit>)
    requires Placed(d, a, us) && |us| > 1 && us[1].nal != []
    ensures var e := a + |us[0].nal|; var n := e + if us[1].long then 4 else 3;
            && n < |d| && Seen(d, e) && e + CodeAt(d, e).len == n && Placed(d, n, us[1..])
  {
    CodeBytes(d, a, us);
    PlacedNext(d, a, us);
    var e := a + |us[0].nal|;
    var n := e + if us[1].long then 4 else 3;
    PlacedBytes(d, n, us[1..], 0);
  }

  /** A code seen inside a NAL costs bytes and never reaches past the next true code. */
  lemma CutStaysInside(d: seq<byte>, a: nat, us: seq<Unit>, i: nat)
    requires Placed(d, a, us) && a <= i < a + |us[0].nal| && Seen(d, i)
    ensures var e := a + |us[0].nal|; var n := i + CodeAt(d, i).len;
            n <= e || (|us| > 1 && !us[1].long && n == e + 3)
  {
    PlacedBytes(d, a, us, i - a);
    if |us| > 1 {
      CodeBytes(d, a, us);
    } else {
      assert d[a..] == us[0].nal;
    }
  }

  /** The bound on what is kept from position i of the first NAL on. */
  predicate AtMost(d: seq<byte>, a: nat, us: seq<Unit>, s: nat, i: nat)
    requires us != []
  {
    var e := a + |us[0].nal|;
    var most := e - s + TotalNal(us[1..]);
    && Kept(d, s, i) <= most
    && (SeenBetween(d, i, e) || !Survives(us[1..]) ==> Kept(d, s, i) < most)
  }

  lemma AtMostAtEnd(d: seq<byte>, a: nat, us: seq<Unit>, s: nat)
    requires Placed(d, a, us) && |us| == 1 && s <= a + |us[0].nal|
    ensures AtMost(d, a, us, s, a + |us[0].nal|)
  {
    assert d[a..] == us[0].nal;
    UnitsStep(us[1..]);
    KeptStep(d, s, |d|);
    SeenBetweenStep(d, |d|, |d|);
  }

  lemma AtMostAtCode(d: seq<byte>, a: nat, us: seq<Unit>, s: nat)
    requires Placed(d, a, us) && |us| > 1 && us[1].nal != [] && s <= a + |us[0].nal|
    requires var n := a + |us[0].nal| + if us[1].long then 4 else 3; AtMost(d, n, us[1..], n, n)
    ensures AtMost(d, a, us, s, a + |us[0].nal|)
  {
    hide Kept, TotalNal, Survives, SeenBetween, KeptWhole, Seen, CodeAt, Placed;
    var e := a + |us[0].nal|;
    var n := e + if us[1].long then 4 else 3;
    ResumesBehindCode(d, a, us);
    SeenInside(d, n, us[1..]);
    NotBetween(d, n, n + |us[1].nal|);
    UnitsStep(us[1..]);
    KeptStep(d, s, e);
    SeenBetweenStep(d, e, e);
  }

  lemma NotBetween(d: seq<byte>, i: nat, e: nat)
    ensures !SeenBetween(d, i, e) <==> forall p :: i <= p < e ==> !Seen(d, p)
  {
  }

  lemma AtMostPlain(d: seq<byte>, a: nat, us: seq<Unit>, s: nat, i: nat)
    requires us != [] && a <= i < a + |us[0].nal| <= |d| && !Seen(d, i) && AtMost(d, a, us, s, i + 1)
    ensures AtMost(d, a, us, s, i)
  {
    KeptStep(d, s, i);
    SeenBetweenStep(d, i, a + |us[0].nal|);
    hide TotalNal, Survives, SeenBetween, Seen, Kept;
    assert i + 3 >= |d| ==> Kept(d, s, i + 1) == |d| - s by {
      KeptStep(d, s, i + 1);
    }
  }

  lemma AtMostCut(d: seq<byte>, a: nat, us: seq<Unit>, s: nat, i: nat)
    requires us != [] && a <= s <= i < a + |us[0].nal| && Seen(d, i)
    requires var n := i + CodeAt(d, i).len;
             || (n <= a + |us[0].nal| && AtMost(d, a, us, n, n))
             || (|us| > 1 && n == a + |us[0].nal| + 3 && AtMost(d, n, us[1..], n, n))
    ensures AtMost(d, a, us, s, i)
  {
    KeptStep(d, s, i);
    UnitsStep(us[1..]);
    hide TotalNal, Survives, SeenBetween, Kept;
  }

  /** The scan never keeps more than the NALs hold, and keeps less when it cuts one. */
  lemma {:induction false} KeptAtMost(d: seq<byte>, a: nat, us: seq<Unit>, s: nat, i: nat)
    requires Placed(d, a, us) && a <= s <= i <= a + |us[0].nal|
    requires forall u :: u in us ==> u.nal != []
    ensures AtMost(d, a, us, s, i)
    decreases |us|, |d| - i
  {
    var e := a + |us[0].nal|;
    PlacedFits(d, a, us);
    hide AtMost;
    if i == e {
      if |us| == 1 {
        AtMostAtEnd(d, a, us, s);
      } else {
        assert us[1] in us;
        PlacedNext(d, a, us);
        var n := e + if us[1].long then 4 else 3;
        hide Placed;
        KeptAtMost(d, n, us[1..], n, n);
        AtMostAtCode(d, a, us, s);
      }
    } else if Seen(d, i) {
      CutStaysInside(d, a, us, i);
      var n := i + CodeAt(d, i).len;
      if n <= e {
        hide Placed;
        KeptAtMost(d, a, us, n, n);
      } else {
        PlacedNext(d, a, us);
        hide Placed;
        KeptAtMost(d, n, us[1..], n, n);
      }
      AtMostCut(d, a, us, s, i);
    } else {
      hide Placed;
      KeptAtMost(d, a, us, s, i + 1);
      AtMostPlain(d, a, us, s, i);
    }
  }

  lemma PlacedFits(d: seq<byte>, a: nat, us: seq<Unit>)
    requires Placed(d, a, us)
    ensures a + |us[0].nal| <= |d|
  {
    assert |d[a..]| >= |us[0].nal|;
  }

  // ======== the round trip ========

  /** A NAL as the standard wants it: not empty, no 00 00 00 or 00 00 01 inside, and no
      zero byte at the end. */
  predicate Clean(nal: seq<byte>) {
    && nal != [] && nal[|nal| - 1] != 0
    && forall i :: 0 <= i && i + 2 < |nal| && nal[i] == 0 && nal[i + 1] == 0 ==> nal[i + 2] > 1
  }

  /** Clean NALs survive any mix of start codes. */
  lemma {:induction false} CleanNalsSurvive(us: seq<Unit>)
    requires forall u :: u in us ==> Clean(u.nal)
    ensures Survives(us)
  {
    if us != [] {
      assert us[0] in us;
      var nal := us[0].nal;
      forall p | 0 <= p < |nal|
        ensures !At3(nal, p) && !Seen(nal, p)
      {
        assert nal[p] == 0 && p + 2 < |nal| && nal[p + 1] == 0 ==> nal[p + 2] > 1;
      }
      assert forall u :: u in us[1..] ==> u in us;
      CleanNalsSurvive(us[1..]);
    }
  }


  /** The scan from the start of a NAL it keeps whole. */
  lemma ScanPastNal(d: seq<byte>, a: nat, us: seq<Unit>)
    requires Placed(d, a, us) && KeptWhole(us) && (|us| > 1 ==> us[1].nal != [])
    ensures var e := a + |us[0].nal|;
            && e <= |d| && d[a..e] == us[0].nal
            && (|us| == 1 ==> e == |d| && Codes(d, a) == [])
            && (|us| > 1 ==> var n := e + (if us[1].long then 4 else 3);
                             Codes(d, a) == [Code(e, n - e)] + Codes(d, n) && Placed(d, n, us[1..]))
  {
    assert us != [];
    PlacedNal(d, a, us);
    hide Codes, KeptWhole, Seen, Placed;
    SeenInside(d, a, us);
    NothingSeen(d, a, a + |us[0].nal|);
    if |us| > 1 {
      ResumesBehindCode(d, a, us);
    }
  }

  lemma PlacedNal(d: seq<byte>, a: nat, us: seq<Unit>)
    requires Placed(d, a, us)
    ensures var e := a + |us[0].nal|; e <= |d| && d[a..e] == us[0].nal && (|us| == 1 ==> e == |d|)
  {
    assert d[a..a + |us[0].nal|] == d[a..][..|us[0].nal|];
  }

  lemma {:induction false} KeptInOrder(d: seq<byte>, a: nat, us: seq<Unit>, cs: seq<Code>, k: nat)
    requires Placed(d, a, us) && Survives(us)
    requires k < |cs| && NalStart(cs, k) == a && cs[k + 1..] == Codes(d, a)
    ensures NalsFrom(d, cs, k) == NalsOf(us)
    decreases |us|
  {
    assert |us| > 1 ==> us[1..][0].nal != [];
    ScanPastNal(d, a, us);
    hide Codes, Placed, KeptWhole;
    var e := a + |us[0].nal|;
    if |us| == 1 {
      assert |cs| == k + 1;
      assert NalsFrom(d, cs, k + 1) == [] == NalsOf(us[1..]);
    } else {
      var n := e + if us[1].long then 4 else 3;
      NextCode(cs, k, Code(e, n - e), Codes(d, n));
      KeptInOrder(d, n, us[1..], cs, k + 1);
    }
    assert Nal(d, cs, k) == us[0].nal;
  }

  lemma FirstCode(us: seq<Unit>)
    requires us != [] && us[0].nal != []
    ensures var d := Join(us); var n := if us[0].long then 4 else 3;
            Codes(d, 0) == [Code(0, n)] + Codes(d, n) && Placed(d, n, us)
  {
    var d := Join(us);
    FirstBytes(us);
    hide Codes, Join;
    var n := if us[0].long then 4 else 3;
    var c := d[..n];
    PlacedBytes(d, n, us, 0);
    assert c[0] == d[0] && c[1] == d[1] && c[2] == d[2];
    assert us[0].long ==> c[3] == d[3];
    assert Seen(d, 0) && CodeAt(d, 0) == Code(0, n);
  }

  lemma {:induction false} NeverEmpty(d: seq<byte>, cs: seq<Code>, k: nat)
    requires k <= |cs|
    ensures [] !in NalsFrom(d, cs, k)
    decreases |cs| - k
  {
    if k < |cs| {
      NeverEmpty(d, cs, k + 1);
    }
  }

  lemma {:induction false} NalsOfHolds(us: seq<Unit>, u: Unit)
    requires u in us
    ensures u.nal in NalsOf(us)
  {
    if u != us[0] {
      assert us == [us[0]] + us[1..];
      NalsOfHolds(us[1..], u);
    }
  }

  lemma {:induction false} SurvivorsNotEmpty(us: seq<Unit>)
    requires Survives(us)
    ensures forall u :: u in us ==> u.nal != []
  {
    if us != [] {
      SurvivorsNotEmpty(us[1..]);
      assert us == [us[0]] + us[1..];
    }
  }

  /** An empty NAL is passed over, so it never comes back. */
  lemma EmptyIsLost(us: seq<Unit>, u: Unit)
    requires u in us && u.nal == []
    ensures Nals(Join(us)) != NalsOf(us) && !Survives(us)
  {
    NeverEmpty(Join(us), Codes(Join(us), 0), 0);
    NalsOfHolds(us, u);
    if Survives(us) {
      SurvivorsNotEmpty(us);
      assert false;
    }
  }

  /** A NAL that the scanner cuts leaves fewer bytes than were joined. */
  lemma CutIsLost(us: seq<Unit>)
    requires us != [] && !Survives(us) && forall u :: u in us ==> u.nal != []
    ensures Nals(Join(us)) != NalsOf(us)
  {
    var d := Join(us);
    var n := if us[0].long then 4 else 3;
    assert us[0] in us;
    FirstCode(us);
    hide Join, Codes, Survives;
    assert Codes(d, 0)[1..] == Codes(d, n);
    KeptIsTotal(d, Codes(d, 0), 0, n);
    PlacedFits(d, n, us);
    KeptAtMost(d, n, us, n, n);
    SeenInside(d, n, us);
    TotalsAgree(us);
  }

  /** The byte-stream round trip, exactly: scanning and slicing gives back the joined NALs
      if and only if no NAL is empty and the scanner keeps every one whole. */
  lemma ByteStreamRoundTrip(us: seq<Unit>)
    ensures Nals(Join(us)) == NalsOf(us) <==> Survives(us)
  {
    if u :| u in us && u.nal == [] {
      EmptyIsLost(us, u);
    } else if us != [] {
      if Survives(us) {
        assert us[0] in us;
        FirstCode(us);
        hide Join, Codes, Survives;
        KeptInOrder(Join(us), if us[0].long then 4 else 3, us, Codes(Join(us), 0), 0);
      } else {
        CutIsLost(us);
      }
    }
  }

  /** A NAL that ends in a zero before a three-byte code comes back shorter. */
  lemma FinalZeroIsLost()
    ensures var us := [Unit(false, [9, 0]), Unit(false, [9])];
            Nals(Join(us)) == [[9], [9]] && !Survives(us)
  {
    var us := [Unit(false, [9, 0]), Unit(false, [9])];
    var d: seq<byte> := [0, 0, 1, 9, 0, 0, 0, 1, 9];
    assert us[1..] == [Unit(false, [9])] && us[1..][1..] == [];
    assert Join(us[1..]) == [0, 0, 1, 9];
    assert Join(us) == d;
    CodesOfNine(d);
    var cs := [Code(0, 3), Code(4, 4)];
    assert Nal(d, cs, 0) == d[3..4] == [9] && Nal(d, cs, 1) == d[8..9] == [9];
    hide Codes, Nal, Join, Survives;
    assert NalsFrom(d, cs, 2) == [];
    assert NalsFrom(d, cs, 1) == [[9]];
    ByteStreamRoundTrip(us);
    assert NalsOf(us)[0] == [9, 0];
  }

  lemma CodesOfNine(d: seq<byte>)
    requires d == [0, 0, 1, 9, 0, 0, 0, 1, 9]
    ensures Codes(d, 0) == [Code(0, 3), Code(4, 4)]
  {
    assert Codes(d, 8) == [];
    assert Codes(d, 4) == [Code(4, 4)];
    assert Codes(d, 3) == Codes(d, 4);
  }

  /** A code that ends the data is not found; its bytes stay in the last NAL. */
  lemma CodeAtEndIsUnseen()
    ensures var d: seq<byte> := [0, 0, 1, 9, 0, 0, 1];
            Codes(d, 0) == [Code(0, 3)] && Nals(d) == [[9, 0, 0, 1]]
  {
    var d: seq<byte> := [0, 0, 1, 9, 0, 0, 1];
    var cs := [Code(0, 3)];
    assert Codes(d, 4) == [];
    assert Codes(d, 3) == Codes(d, 4);
    assert Nal(d, cs, 0) == d[3..7] == [9, 0, 0, 1];
    hide Codes, Nal;
    assert NalsFrom(d, cs, 1) == [];
  }
}
