/** When patching a stream twice is patching it once, for streams whose framing the first
    patch changes as well. */
module H264PatchTwice {
  import opened Basics
  import opened H264StartCodes
  import opened H264Patch

  // ======== streams the patch leaves alone ========

  /** If the bytes from a to e are an IDR NAL of at least two bytes, the last one is odd. */
  predicate OddEnd(r: seq<byte>, a: nat, e: nat) {
    a + 1 < e <= |r| && r[a] & 0x1F == 5 ==> r[e - 1] | 1 == r[e - 1]
  }

  /** So it is for the NAL that begins at a and all behind it, `rest` being the codes. */
  predicate OddEnds(r: seq<byte>, a: nat, rest: seq<Code>)
    decreases |rest|
  {
    if rest == [] then OddEnd(r, a, |r|)
    else OddEnd(r, a, rest[0].pos) && OddEnds(r, rest[0].pos + rest[0].len, rest[1..])
  }

  predicate OddFrom(r: seq<byte>, cs: seq<Code>, k: nat) {
    forall m :: k <= m < |cs| && Idr(r, cs, m) ==> r[NalEnd(r, cs, m) - 1] | 1 == r[NalEnd(r, cs, m) - 1]
  }

  lemma {:induction false} OddEndsAreOdd(r: seq<byte>, cs: seq<Code>, k: nat)
    requires k < |cs|
    ensures OddEnds(r, NalStart(cs, k), cs[k + 1..]) <==> OddFrom(r, cs, k)
    decreases |cs| - k
  {
    assert OddEnd(r, NalStart(cs, k), NalEnd(r, cs, k)) <==>
           (Idr(r, cs, k) ==> r[NalEnd(r, cs, k) - 1] | 1 == r[NalEnd(r, cs, k) - 1]);
    if k + 1 < |cs| {
      OddEndsAreOdd(r, cs, k + 1);
      assert cs[k + 1..][0] == cs[k + 1] && cs[k + 1..][1..] == cs[k + 2..];
      hide Idr, OddEnd;
    }
  }

  lemma UnpatchedIfOdd(r: seq<byte>)
    ensures Patched(r) == r <==> OddFrom(r, Codes(r, 0), 0)
  {
    var cs := Codes(r, 0);
    PatchLength(r);
    hide Codes, Patched, Idr;
    if Patched(r) == r {
      forall m | 0 <= m < |cs| && Idr(r, cs, m)
        ensures r[NalEnd(r, cs, m) - 1] | 1 == r[NalEnd(r, cs, m) - 1]
      {
        LastByte(r, cs, m);
        PatchTouches(r, NalEnd(r, cs, m) - 1);
      }
    }
    if OddFrom(r, cs, 0) {
      forall i | 0 <= i < |r|
        ensures Patched(r)[i] == r[i]
      {
        PatchTouches(r, i);
      }
    }
  }

  lemma LastByte(r: seq<byte>, cs: seq<Code>, m: nat)
    requires m < |cs| && Idr(r, cs, m)
    ensures 0 < NalEnd(r, cs, m) <= |r|
  {
  }

  lemma PatchIsIdle(r: seq<byte>)
    ensures var cs := Codes(r, 0);
            Patched(r) == r <==> cs == [] || OddEnds(r, NalStart(cs, 0), cs[1..])
  {
    UnpatchedIfOdd(r);
    hide Codes, Patched;
    if Codes(r, 0) != [] {
      OddEndsAreOdd(r, Codes(r, 0), 0);
    }
  }

  // ======== the patched stream, NAL by NAL ========

  /** Where a fragile NAL ends once its last byte is set: before the code that appears. */
  function NewEnd(d: seq<byte>, cs: seq<Code>, k: nat): nat
    requires k < |cs| && Fragile(d, cs, k)
  {
    var e := NalEnd(d, cs, k);
    if d[e - 4] == 0 then e - 4 else e - 3
  }

  /** What is left of a fragile NAL is one byte long or ends in an odd byte. */
  predicate Settles(d: seq<byte>, cs: seq<Code>, k: nat)
    requires k < |cs|
  {
    Fragile(d, cs, k) ==>
      var f := NewEnd(d, cs, k);
      f <= NalStart(cs, k) + 1 || d[f - 1] | 1 == d[f - 1]
  }

  /** Behind NAL k the patched stream goes on with the code that was there. */
  lemma CodesBehind(d: seq<byte>, cs: seq<Code>, k: nat)
    requires cs == Codes(d, 0) && k < |cs|
    ensures var r, e := Patched(d), NalEnd(d, cs, k);
            |r| == |d| && Codes(r, e) == if k + 1 < |cs| then [cs[k + 1]] + Codes(r, NalStart(cs, k + 1)) else []
  {
    PatchLength(d);
    if k + 1 < |cs| {
      hide Codes, Patched;
      CodesUntouched(d, cs, k + 1);
      ScanStep(Patched(d), cs[k + 1].pos);
    }
  }

  lemma ScanStep(r: seq<byte>, i: nat)
    requires Seen(r, i)
    ensures Codes(r, i) == [CodeAt(r, i)] + Codes(r, i + CodeAt(r, i).len)
  {
  }

  lemma PlainNal(d: seq<byte>, cs: seq<Code>, k: nat)
    requires cs == Codes(d, 0) && k < |cs| && !Fragile(d, cs, k)
    ensures var r, a, e := Patched(d), NalStart(cs, k), NalEnd(d, cs, k);
            Codes(r, a) == Codes(r, e) && OddEnd(r, a, e)
  {
    NalIsInside(d, cs, k);
    var r, a, e := Patched(d), NalStart(cs, k), NalEnd(d, cs, k);
    hide Codes, Patched, Fragile, Seen;
    forall p | a <= p < e
      ensures !Seen(r, p)
    {
      if Seen(r, p) {
        SeenIsFragile(d, cs, k, p);
      }
    }
    NothingSeen(r, a, e);
    if a + 1 < e {
      NearbyByte(d, cs, k, a);
      NearbyByte(d, cs, k, e - 1);
      SetIsOdd(d[e - 1]);
    }
  }

  lemma SetIsOdd(b: byte)
    ensures (b | 1) | 1 == b | 1
  {
  }

  lemma NalIsInside(d: seq<byte>, cs: seq<Code>, k: nat)
    requires cs == Codes(d, 0) && k < |cs|
    ensures NalStart(cs, k) <= NalEnd(d, cs, k) <= |d| && |Patched(d)| == |d|
  {
    RegionsOfScan(d);
    PatchLength(d);
    hide Codes, Layout, Patched;
  }

  /** The bytes around the end of a fragile NAL, once patched. */
  lemma FragileEnd(d: seq<byte>, cs: seq<Code>, k: nat)
    requires cs == Codes(d, 0) && k < |cs| && Fragile(d, cs, k)
    ensures var r, a, e, f := Patched(d), NalStart(cs, k), NalEnd(d, cs, k), NewEnd(d, cs, k);
            && a < f <= e - 3 && e <= |r| == |d| && r[a] == d[a] && r[f - 1] == d[f - 1]
            && Seen(r, f) && CodeAt(r, f) == Code(f, e - f)
  {
    FragileBytes(d, cs, k);
    NalIsInside(d, cs, k);
    hide Codes, Patched;
    var a, e, f := NalStart(cs, k), NalEnd(d, cs, k), NewEnd(d, cs, k);
    assert d[a] != 0;
    NearbyByte(d, cs, k, a);
    NearbyByte(d, cs, k, f - 1);
    NearbyByte(d, cs, k, e - 1);
    NearbyByte(d, cs, k, e - 2);
    NearbyByte(d, cs, k, e - 3);
    NearbyByte(d, cs, k, e - 4);
  }

  /** Nothing else is seen in a fragile NAL. */
  lemma NotSeenEarlier(d: seq<byte>, cs: seq<Code>, k: nat, p: nat)
    requires cs == Codes(d, 0) && k < |cs| && Fragile(d, cs, k)
    requires NalStart(cs, k) <= p < NewEnd(d, cs, k)
    ensures !Seen(Patched(d), p)
  {
    FragileEnd(d, cs, k);
    NotSeenInside(d, cs, k, p);
    hide Codes, Patched;
    if Seen(Patched(d), p) {
      NearbyFour(d, cs, k, p);
      SetByteMakesCode(d, Patched(d), p, NalEnd(d, cs, k) - 1);
      assert false;
    }
  }

  lemma FragileNal(d: seq<byte>, cs: seq<Code>, k: nat)
    requires cs == Codes(d, 0) && k < |cs| && Fragile(d, cs, k)
    ensures var r, a, e, f := Patched(d), NalStart(cs, k), NalEnd(d, cs, k), NewEnd(d, cs, k);
            Codes(r, a) == [Code(f, e - f)] + Codes(r, e) && (OddEnd(r, a, f) <==> Settles(d, cs, k))
  {
    var r, a, f := Patched(d), NalStart(cs, k), NewEnd(d, cs, k);
    FragileEnd(d, cs, k);
    FragileType(d, cs, k);
    hide Codes, Patched, Fragile, NewEnd, Seen;
    forall p | a <= p < f
      ensures !Seen(r, p)
    {
      NotSeenEarlier(d, cs, k, p);
    }
    NothingSeen(r, a, f);
    ScanStep(r, f);
  }

  lemma FragileType(d: seq<byte>, cs: seq<Code>, k: nat)
    requires k < |cs| && Fragile(d, cs, k)
    ensures NalStart(cs, k) < |d| && d[NalStart(cs, k)] & 0x1F == 5
  {
  }

  // ======== the second patch ========

  /** From NAL k on, the second patch changes nothing exactly if all NALs settle. */
  lemma {:induction false} SecondPatchFrom(d: seq<byte>, cs: seq<Code>, k: nat)
    requires cs == Codes(d, 0) && k < |cs|
    ensures var r, a := Patched(d), NalStart(cs, k);
            OddEnds(r, a, Codes(r, a)) <==> forall j :: k <= j < |cs| ==> Settles(d, cs, j)
    decreases |cs| - k
  {
    var r, a, e := Patched(d), NalStart(cs, k), NalEnd(d, cs, k);
    CodesBehind(d, cs, k);
    hide Codes, Patched, Fragile, Settles;
    if k + 1 < |cs| {
      SecondPatchFrom(d, cs, k + 1);
    }
    BehindEnd(d, cs, k);
    assert (forall j :: k <= j < |cs| ==> Settles(d, cs, j)) <==>
           Settles(d, cs, k) && forall j :: k + 1 <= j < |cs| ==> Settles(d, cs, j);
    if Fragile(d, cs, k) {
      FragileNal(d, cs, k);
      FirstEnd(r, a, Code(NewEnd(d, cs, k), e - NewEnd(d, cs, k)), Codes(r, e));
    } else {
      PlainNal(d, cs, k);
      PlainSettles(d, cs, k);
      NextEnd(r, a, e, Codes(r, e));
    }
  }

  lemma PlainSettles(d: seq<byte>, cs: seq<Code>, k: nat)
    requires k < |cs| && !Fragile(d, cs, k)
    ensures Settles(d, cs, k)
  {
  }

  lemma FirstEnd(r: seq<byte>, a: nat, c: Code, rest: seq<Code>)
    ensures OddEnds(r, a, [c] + rest) <==> OddEnd(r, a, c.pos) && OddEnds(r, c.pos + c.len, rest)
  {
    assert ([c] + rest)[1..] == rest;
  }

  /** A NAL with an odd end may be left off. */
  lemma NextEnd(r: seq<byte>, a: nat, e: nat, rest: seq<Code>)
    requires OddEnd(r, a, e) && e == if rest == [] then |r| else rest[0].pos
    ensures OddEnds(r, a, rest) <==> OddEnds(r, e, rest)
  {
  }

  /** Behind the end of NAL k come the later NALs. */
  lemma BehindEnd(d: seq<byte>, cs: seq<Code>, k: nat)
    requires cs == Codes(d, 0) && k < |cs|
    ensures var r, e := Patched(d), NalEnd(d, cs, k);
            && e == (if Codes(r, e) == [] then |r| else Codes(r, e)[0].pos)
            && (OddEnds(r, e, Codes(r, e)) <==>
                  k + 1 < |cs| ==> OddEnds(r, NalStart(cs, k + 1), Codes(r, NalStart(cs, k + 1))))
  {
    CodesBehind(d, cs, k);
    hide Codes, Patched;
    if k + 1 < |cs| {
      FirstEnd(Patched(d), NalEnd(d, cs, k), cs[k + 1], Codes(Patched(d), NalStart(cs, k + 1)));
    }
  }

  /** Before the first NAL nothing changes. */
  lemma CodesInFront(d: seq<byte>)
    ensures var cs, r := Codes(d, 0), Patched(d);
            Codes(r, 0) == if cs == [] then [] else [cs[0]] + Codes(r, NalStart(cs, 0))
  {
    var cs, r := Codes(d, 0), Patched(d);
    PatchLength(d);
    if cs == [] {
      assert Patched(d) == d;
    } else {
      hide Codes, Patched, Seen;
      forall p | 0 <= p < cs[0].pos
        ensures !Seen(r, p)
      {
        FrontUntouched(d, cs, p);
      }
      NothingSeen(r, 0, cs[0].pos);
      CodesUntouched(d, cs, 0);
      ScanStep(r, cs[0].pos);
    }
  }

  /** Patching twice is patching once if and only if each fragile NAL, cut before the code
      that its patch makes, is one byte long or ends in an odd byte. */
  lemma PatchTwiceIff(d: seq<byte>)
    ensures var cs := Codes(d, 0);
            Patched(Patched(d)) == Patched(d) <==> forall k :: 0 <= k < |cs| ==> Settles(d, cs, k)
  {
    var cs, r := Codes(d, 0), Patched(d);
    CodesInFront(d);
    PatchIsIdle(r);
    hide Codes, Patched, Settles;
    if cs != [] {
      assert Codes(r, 0)[1..] == Codes(r, NalStart(cs, 0));
      SecondPatchFrom(d, cs, 0);
    }
  }

  /** A NAL that ends in 22 00 00 00 before a code: the second patch sets the 22. */
  lemma SecondPatchGoesOn()
    ensures var d: seq<byte> := [0, 0, 1, 0x65, 0x22, 0, 0, 0, 0, 0, 0, 1, 9];
            Patched(Patched(d)) != Patched(d)
  {
    var d: seq<byte> := [0, 0, 1, 0x65, 0x22, 0, 0, 0, 0, 0, 0, 1, 9];
    CodesOfThirteen(d);
    PatchTwiceIff(d);
    hide Codes, Patched;
    assert Fragile(d, [Code(0, 3), Code(8, 4)], 0);
    assert !Settles(d, [Code(0, 3), Code(8, 4)], 0);
  }

  lemma CodesOfThirteen(d: seq<byte>)
    requires d == [0, 0, 1, 0x65, 0x22, 0, 0, 0, 0, 0, 0, 1, 9]
    ensures Codes(d, 0) == [Code(0, 3), Code(8, 4)]
  {
    assert Codes(d, 12) == [];
    assert Codes(d, 8) == [Code(8, 4)];
    assert Codes(d, 7) == Codes(d, 8) && Codes(d, 6) == Codes(d, 7) && Codes(d, 5) == Codes(d, 6);
    assert Codes(d, 4) == Codes(d, 5) && Codes(d, 3) == Codes(d, 4);
  }
}
