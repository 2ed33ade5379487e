/** The CABAC alignment patch: the last byte of every IDR NAL gets its lowest bit set.
    When that leaves the byte stream's framing alone, and when it does not. */
module H264Patch {
  import opened Basics
  import opened H264StartCodes

  /** NAL number k is an IDR slice (type 5) of at least two bytes. */
  predicate Idr(d: seq<byte>, cs: seq<Code>, k: nat)
    requires k < |cs|
  {
    var a, e := NalStart(cs, k), NalEnd(d, cs, k);
    a < |d| && a + 1 < e <= |d| && d[a] & 0x1F == 5
  }

  /** The stream after the patch loop has handled NALs k, k + 1, ... */
  function PatchFrom(d: seq<byte>, cs: seq<Code>, k: nat): (r: seq<byte>)
    requires k <= |cs|
    ensures |r| == |d|
    decreases |cs| - k
  {
    if k == |cs| then d
    else if Idr(d, cs, k) then
      var last := NalEnd(d, cs, k) - 1;
      PatchFrom(d[last := d[last] | 1], cs, k + 1)
    else PatchFrom(d, cs, k + 1)
  }

  function Patched(d: seq<byte>): seq<byte> {
    PatchFrom(d, Codes(d, 0), 0)
  }

  method PatchIdrAlignment(data: array<byte>)
    modifies data
    ensures data[..] == Patched(old(data[..]))
  {
    ghost var d := data[..];
    var cs := FindStartCodes(data[..]);
    RegionsOfScan(d);
    assert forall k :: 0 <= k < |cs| ==> NalEnd(d, cs, k) <= |d|;
    hide Codes, Inside;
    for k := 0 to |cs|
      invariant PatchFrom(data[..], cs, k) == Patched(d)
    {
      assert NalEnd(data[..], cs, k) == NalEnd(d, cs, k);
      PatchNal(data, cs, k);
    }
  }

  /** One pass of the patch loop. */
  method PatchNal(data: array<byte>, cs: seq<Code>, k: nat)
    requires k < |cs| && NalEnd(data[..], cs, k) <= data.Length
    modifies data
    ensures var d := old(data[..]); var last := NalEnd(d, cs, k) - 1;
            data[..] == if Idr(d, cs, k) then d[last := d[last] | 1] else d
  {
    var nalStart := cs[k].pos + cs[k].len;
    var nalEnd := if k + 1 < |cs| then cs[k + 1].pos else data.Length;
    if nalStart >= data.Length {
      return;
    }
    if data[nalStart] & 0x1F == 5 {
      if nalEnd <= nalStart + 1 {
        return;
      }
      data[nalEnd - 1] := data[nalEnd - 1] | 0x01;
    }
  }

  lemma {:induction false} LayoutBounds(d: seq<byte>, i: nat, cs: seq<Code>)
    requires Layout(d, i, cs)
    ensures forall k :: 0 <= k < |cs| ==>
              i <= cs[k].pos && 3 <= cs[k].len <= 4 && NalStart(cs, k) <= NalEnd(d, cs, k) <= |d|
    ensures forall k :: 0 <= k < |cs| ==> cs[k] == CodeAt(d, cs[k].pos) && Seen(d, cs[k].pos)
    ensures forall k, p :: 0 <= k < |cs| && NalStart(cs, k) <= p < NalEnd(d, cs, k) ==> !Seen(d, p)
    ensures forall p :: i <= p < (if cs == [] then |d| else cs[0].pos) ==> !Seen(d, p)
    decreases |cs|
  {
    if cs != [] {
      LayoutBounds(d, cs[0].pos + cs[0].len, cs[1..]);
      TailRegions(d, cs);
      hide Seen, CodeAt, NalEnd;
      CodeLength(d, cs[0].pos);
    }
  }

  lemma CodeLength(d: seq<byte>, p: nat)
    ensures 3 <= CodeAt(d, p).len <= 4
  {
  }

  lemma TailRegions(d: seq<byte>, cs: seq<Code>)
    requires cs != []
    ensures forall k :: 0 < k < |cs| ==>
              && cs[k] == cs[1..][k - 1] && NalStart(cs, k) == NalStart(cs[1..], k - 1)
              && NalEnd(d, cs, k) == NalEnd(d, cs[1..], k - 1)
    ensures NalEnd(d, cs, 0) == if cs[1..] == [] then |d| else cs[1..][0].pos
  {
  }

  /** The converse: these facts about the regions make cs the scan result. */
  lemma {:induction false} RegionsAreLayout(d: seq<byte>, i: nat, cs: seq<Code>)
    requires forall k :: 0 <= k < |cs| ==> cs[k] == CodeAt(d, cs[k].pos) && Seen(d, cs[k].pos)
    requires forall k :: 0 <= k < |cs| ==> NalStart(cs, k) <= NalEnd(d, cs, k) <= |d|
    requires forall k, p :: 0 <= k < |cs| && NalStart(cs, k) <= p < NalEnd(d, cs, k) ==> !Seen(d, p)
    requires forall p :: i <= p < (if cs == [] then |d| else cs[0].pos) ==> !Seen(d, p)
    requires cs != [] ==> i <= cs[0].pos
    ensures Layout(d, i, cs)
    decreases |cs|
  {
    if cs != [] {
      var n, t := cs[0].pos + cs[0].len, cs[1..];
      forall k | 0 <= k < |t|
        ensures t[k] == cs[k + 1] && NalStart(t, k) == NalStart(cs, k + 1) && NalEnd(d, t, k) == NalEnd(d, cs, k + 1)
      {
      }
      assert NalEnd(d, cs, 0) == if t == [] then |d| else t[0].pos;
      RegionsAreLayout(d, n, t);
    }
  }

  /** Nothing is seen inside a NAL; NALs lie in order with the codes between them. */
  predicate Inside(d: seq<byte>, cs: seq<Code>) {
    && (forall k :: 0 <= k < |cs| ==> NalStart(cs, k) <= NalEnd(d, cs, k) <= |d|)
    && (forall j, m :: 0 <= j < m < |cs| ==> NalEnd(d, cs, j) + 3 <= NalStart(cs, m))
    && (forall j, m :: 0 <= j < m < |cs| ==> NalEnd(d, cs, j) <= cs[m].pos)
  }

  /** Codes are three bytes or longer and no NAL ends before it begins. */
  predicate Ordered(d: seq<byte>, cs: seq<Code>) {
    forall k :: 0 <= k < |cs| ==> 3 <= cs[k].len && NalStart(cs, k) <= NalEnd(d, cs, k)
  }

  lemma OrderedAt(d: seq<byte>, cs: seq<Code>, k: nat)
    requires Ordered(d, cs) && k < |cs|
    ensures cs[k].pos + 3 <= NalStart(cs, k) <= NalEnd(d, cs, k)
  {
  }

  lemma {:induction false} EndBeforeStart(d: seq<byte>, cs: seq<Code>, j: nat, m: nat)
    requires j < m < |cs| && Ordered(d, cs)
    ensures NalEnd(d, cs, j) <= cs[m].pos && NalEnd(d, cs, j) + 3 <= NalStart(cs, m)
    decreases m
  {
    hide Ordered, NalEnd, NalStart;
    EndIsNextCode(d, cs, m - 1);
    OrderedAt(d, cs, m - 1);
    OrderedAt(d, cs, m);
    if m > j + 1 {
      EndBeforeStart(d, cs, j, m - 1);
    }
  }

  lemma EndIsNextCode(d: seq<byte>, cs: seq<Code>, k: nat)
    requires k + 1 < |cs|
    ensures NalEnd(d, cs, k) == cs[k + 1].pos
  {
  }

  lemma ScanIsOrdered(d: seq<byte>, cs: seq<Code>)
    requires cs == Codes(d, 0)
    ensures Layout(d, 0, cs) && Ordered(d, cs)
    ensures forall k :: 0 <= k < |cs| ==> NalStart(cs, k) <= NalEnd(d, cs, k) <= |d|
  {
    ScanIsLayout(d, 0, cs);
    LayoutBounds(d, 0, cs);
    hide Layout, Codes, Seen, CodeAt, NalEnd;
  }

  lemma RegionsOfScan(d: seq<byte>)
    ensures Layout(d, 0, Codes(d, 0)) && Inside(d, Codes(d, 0))
    ensures forall k :: 0 <= k < |Codes(d, 0)| ==> NalEnd(d, Codes(d, 0), k) <= |d|
  {
    var cs := Codes(d, 0);
    ScanIsOrdered(d, cs);
    hide Layout, Codes, Seen, CodeAt, Ordered, NalEnd;
    forall j, m | 0 <= j < m < |cs|
      ensures NalEnd(d, cs, j) <= cs[m].pos && NalEnd(d, cs, j) + 3 <= NalStart(cs, m)
    {
      EndBeforeStart(d, cs, j, m);
    }
  }

  // ======== which bytes change ========

  /** Position i is the last byte of an IDR NAL numbered k or more. */
  ghost predicate Touched(d: seq<byte>, cs: seq<Code>, k: nat, i: nat) {
    exists m :: k <= m < |cs| && Idr(d, cs, m) && i == NalEnd(d, cs, m) - 1
  }

  /** Patching NAL k changes neither the type nor the extent of another NAL. */
  lemma IdrUnaffected(d: seq<byte>, cs: seq<Code>, k: nat, m: nat)
    requires Inside(d, cs) && k < |cs| && m < |cs| && Idr(d, cs, k)
    ensures var last := NalEnd(d, cs, k) - 1; Idr(d[last := d[last] | 1], cs, m) <==> Idr(d, cs, m)
  {
    if m < k {
      assert NalEnd(d, cs, m) < NalStart(cs, k);
    } else if k < m {
      assert NalEnd(d, cs, k) < NalStart(cs, m);
    }
  }

  lemma SameInside(d: seq<byte>, e: seq<byte>, cs: seq<Code>)
    requires |e| == |d|
    ensures Inside(e, cs) <==> Inside(d, cs)
    ensures forall m :: 0 <= m < |cs| ==> NalEnd(e, cs, m) == NalEnd(d, cs, m)
  {
    forall m | 0 <= m < |cs|
      ensures NalEnd(e, cs, m) == NalEnd(d, cs, m)
    {
    }
  }

  /** The stream with the last byte of NAL k patched. */
  function PatchOne(d: seq<byte>, cs: seq<Code>, k: nat): (e: seq<byte>)
    requires k < |cs| && Idr(d, cs, k)
    ensures |e| == |d|
  {
    var last := NalEnd(d, cs, k) - 1;
    d[last := d[last] | 1]
  }

  lemma OthersUnaffected(d: seq<byte>, cs: seq<Code>, k: nat)
    requires Inside(d, cs) && k < |cs| && Idr(d, cs, k)
    ensures var e := PatchOne(d, cs, k);
            && Inside(e, cs)
            && forall m :: 0 <= m < |cs| ==> (Idr(e, cs, m) <==> Idr(d, cs, m)) && NalEnd(e, cs, m) == NalEnd(d, cs, m)
    ensures forall i :: 0 <= i < |d| ==> PatchOne(d, cs, k)[i] == if i == NalEnd(d, cs, k) - 1 then d[i] | 1 else d[i]
  {
    var e := PatchOne(d, cs, k);
    SameInside(d, e, cs);
    hide Inside;
    forall m | 0 <= m < |cs|
      ensures Idr(e, cs, m) <==> Idr(d, cs, m)
    {
      IdrUnaffected(d, cs, k, m);
    }
  }

  lemma TouchedFirst(d: seq<byte>, cs: seq<Code>, k: nat, i: nat)
    requires k < |cs|
    ensures Touched(d, cs, k, i) <==> (Idr(d, cs, k) && i == NalEnd(d, cs, k) - 1) || Touched(d, cs, k + 1, i)
  {
    hide Idr, NalEnd;
  }

  lemma TouchedAlike(d: seq<byte>, e: seq<byte>, cs: seq<Code>, k: nat, i: nat)
    requires forall m :: 0 <= m < |cs| ==> (Idr(e, cs, m) <==> Idr(d, cs, m)) && NalEnd(e, cs, m) == NalEnd(d, cs, m)
    ensures Touched(e, cs, k, i) <==> Touched(d, cs, k, i)
  {
    hide Idr, NalEnd;
  }

  lemma {:induction false} PatchFromBytes(d: seq<byte>, cs: seq<Code>, k: nat, i: nat)
    requires Inside(d, cs) && k <= |cs| && i < |d|
    ensures PatchFrom(d, cs, k)[i] == if Touched(d, cs, k, i) then d[i] | 1 else d[i]
    decreases |cs| - k
  {
    if k < |cs| {
      TouchedFirst(d, cs, k, i);
      if Idr(d, cs, k) {
        var e := PatchOne(d, cs, k);
        OthersUnaffected(d, cs, k);
        assert PatchFrom(d, cs, k) == PatchFrom(e, cs, k + 1);
        hide Inside, Idr, PatchFrom, NalEnd, PatchOne, Touched;
        PatchFromBytes(e, cs, k + 1, i);
        TouchedAlike(d, e, cs, k + 1, i);
      } else {
        hide Inside, Idr, Touched;
        PatchFromBytes(d, cs, k + 1, i);
      }
    }
  }

  /** The patch keeps the length and sets the lowest bit of the last byte of each IDR NAL
      longer than one byte; no other byte changes. */
  lemma PatchTouches(d: seq<byte>, i: nat)
    requires i < |d|
    ensures |Patched(d)| == |d|
    ensures Patched(d)[i] == if Touched(d, Codes(d, 0), 0, i) then d[i] | 1 else d[i]
  {
    RegionsOfScan(d);
    hide Layout, Codes, Inside;
    PatchFromBytes(d, Codes(d, 0), 0, i);
  }

  /** An IDR slice is told by the five low bits of the NAL's first byte: 00101. */
  lemma IdrBits(d: seq<byte>, cs: seq<Code>, k: nat)
    requires k < |cs|
    ensures var a, e := NalStart(cs, k), NalEnd(d, cs, k);
            Idr(d, cs, k) <==> a + 2 <= e <= |d| && Bit(d[a], 0) && !Bit(d[a], 1) && Bit(d[a], 2) && !Bit(d[a], 3)
                               && !Bit(d[a], 4)
  {
    forall b: byte
      ensures b & 0x1F == 5 <==> Bit(b, 0) && !Bit(b, 1) && Bit(b, 2) && !Bit(b, 3) && !Bit(b, 4)
    {
      TypeFive(b);
    }
    hide Bit;
  }

  lemma TypeFive(b: byte)
    ensures b & 0x1F == 5 <==> Bit(b, 0) && !Bit(b, 1) && Bit(b, 2) && !Bit(b, 3) && !Bit(b, 4)
  {
  }

  lemma SetBit(b: byte, j: nat)
    requires j < 8
    ensures Bit(b | 1, j) == (j == 0 || Bit(b, j))
  {
  }

  /** Bit by bit: only the lowest bit of a touched byte changes, and it is set. */
  lemma PatchBits(d: seq<byte>, i: nat, j: nat)
    requires i < |d| && j < 8
    ensures |Patched(d)| == |d|
    ensures Bit(Patched(d)[i], j) == ((j == 0 && Touched(d, Codes(d, 0), 0, i)) || Bit(d[i], j))
  {
    PatchTouches(d, i);
    SetBit(d[i], j);
    hide Bit, Patched, Touched, Codes;
  }

  lemma PatchLength(d: seq<byte>)
    ensures |Patched(d)| == |d|
  {
  }

  // ======== framing ========

  /** Patching this NAL makes a start code appear: it ends in three zero bytes with more
      data behind it, or in four. */
  predicate Fragile(d: seq<byte>, cs: seq<Code>, k: nat)
    requires k < |cs|
  {
    Idr(d, cs, k) &&
    var e := NalEnd(d, cs, k);
    && e >= 4 && d[e - 1] == 0 && d[e - 2] == 0 && d[e - 3] == 0
    && (e < |d| || d[e - 4] == 0)
  }

  predicate FramingSafe(d: seq<byte>) {
    var cs := Codes(d, 0);
    forall k :: 0 <= k < |cs| ==> !Fragile(d, cs, k)
  }

  /** In NAL k and the three bytes behind it only the NAL's last byte can change. */
  lemma NearbyByte(d: seq<byte>, cs: seq<Code>, k: nat, q: nat)
    requires cs == Codes(d, 0) && k < |cs| && q < |d|
    requires NalStart(cs, k) <= q < NalEnd(d, cs, k) + 3
    ensures |Patched(d)| == |d|
    ensures Patched(d)[q] == if q == NalEnd(d, cs, k) - 1 && Idr(d, cs, k) then d[q] | 1 else d[q]
  {
    PatchTouches(d, q);
    RegionsOfScan(d);
    hide Codes, Layout, Patched;
    forall m | 0 <= m < |cs| && Idr(d, cs, m) && q == NalEnd(d, cs, m) - 1
      ensures m == k
    {
    }
  }

  /** The bytes of a code stay. */
  lemma CodeByte(d: seq<byte>, cs: seq<Code>, k: nat, q: nat)
    requires cs == Codes(d, 0) && k < |cs| && cs[k].pos <= q < NalStart(cs, k) && q < |d|
    ensures |Patched(d)| == |d| && Patched(d)[q] == d[q]
  {
    PatchTouches(d, q);
    RegionsOfScan(d);
    hide Codes, Layout, Patched;
    forall m | 0 <= m < |cs| && Idr(d, cs, m)
      ensures q != NalEnd(d, cs, m) - 1
    {
    }
  }

  /** The bytes before the first NAL stay. */
  lemma FrontByte(d: seq<byte>, cs: seq<Code>, q: nat)
    requires cs == Codes(d, 0) && q < |d| && (cs != [] ==> q < NalStart(cs, 0))
    ensures |Patched(d)| == |d| && Patched(d)[q] == d[q]
  {
    PatchTouches(d, q);
    RegionsOfScan(d);
    hide Codes, Layout, Patched;
    forall m | 0 <= m < |cs| && Idr(d, cs, m)
      ensures q != NalEnd(d, cs, m) - 1
    {
      if m > 0 {
        assert NalEnd(d, cs, 0) <= cs[m].pos;
      }
    }
  }

  /** The zeros of a fragile NAL all lie behind its first byte, which is not zero. */
  lemma FragileBytes(d: seq<byte>, cs: seq<Code>, k: nat)
    requires k < |cs| && Fragile(d, cs, k)
    ensures NalStart(cs, k) + 4 <= NalEnd(d, cs, k) <= |d|
    ensures NalEnd(d, cs, k) == |d| ==> NalStart(cs, k) + 5 <= NalEnd(d, cs, k)
  {
    assert d[NalStart(cs, k)] != 0;
  }

  lemma FragileIsSeen(d: seq<byte>, cs: seq<Code>, k: nat)
    requires cs == Codes(d, 0) && k < |cs| && Fragile(d, cs, k)
    ensures exists p :: NalStart(cs, k) <= p < NalEnd(d, cs, k) && Seen(Patched(d), p)
  {
    FragileBytes(d, cs, k);
    hide Codes, Patched;
    var e := NalEnd(d, cs, k);
    var p := if e < |d| then e - 3 else e - 4;
    NearbyByte(d, cs, k, p);
    NearbyByte(d, cs, k, p + 1);
    NearbyByte(d, cs, k, p + 2);
    NearbyByte(d, cs, k, p + 3);
    assert Seen(Patched(d), p);
  }

  /** A code that appears when byte c is set stands in three zeros that end at c: two in
      front of a three-byte code's one, or three in front of a four-byte code's. */
  lemma SetByteMakesCode(d: seq<byte>, r: seq<byte>, p: nat, c: int)
    requires |r| == |d| && p + 4 <= |d| && !Seen(d, p) && Seen(r, p)
    requires forall q :: p <= q < p + 4 ==> r[q] == WithSet(d[q], q == c)
    ensures c == p + 2 || c == p + 3
    ensures d[c] == 0 && d[c - 1] == 0 && d[c - 2] == 0 && (c == p + 3 ==> d[p] == 0)
  {
    assert r[p] == WithSet(d[p], p == c) && r[p + 1] == WithSet(d[p + 1], p + 1 == c);
    assert r[p + 2] == WithSet(d[p + 2], p + 2 == c) && r[p + 3] == WithSet(d[p + 3], p + 3 == c);
    WithSetIs(d[p], p == c);
    WithSetIs(d[p + 1], p + 1 == c);
    WithSetIs(d[p + 2], p + 2 == c);
    WithSetIs(d[p + 3], p + 3 == c);
    hide WithSet;
  }

  function WithSet(b: byte, set1: bool): byte {
    if set1 then b | 1 else b
  }

  lemma WithSetIs(b: byte, set1: bool)
    ensures WithSet(b, set1) == 0 <==> !set1 && b == 0
    ensures WithSet(b, set1) == 1 <==> b == 1 || (set1 && b == 0)
  {
  }

  lemma NearbyFour(d: seq<byte>, cs: seq<Code>, k: nat, p: nat)
    requires cs == Codes(d, 0) && k < |cs| && NalStart(cs, k) <= p < NalEnd(d, cs, k) && p + 4 <= |d|
    ensures var c := if Idr(d, cs, k) then NalEnd(d, cs, k) - 1 else -1; var r := Patched(d);
            |r| == |d| && forall q :: p <= q < p + 4 ==> r[q] == WithSet(d[q], q == c)
  {
    PatchLength(d);
    hide Codes, Patched, Idr;
    forall q | p <= q < p + 4
      ensures Patched(d)[q] == WithSet(d[q], q == NalEnd(d, cs, k) - 1 && Idr(d, cs, k))
    {
      NearbyByte(d, cs, k, q);
    }
  }

  lemma NotSeenInside(d: seq<byte>, cs: seq<Code>, k: nat, p: nat)
    requires cs == Codes(d, 0) && k < |cs| && NalStart(cs, k) <= p < NalEnd(d, cs, k)
    ensures !Seen(d, p) && |Patched(d)| == |d|
  {
    PatchLength(d);
    RegionsOfScan(d);
    LayoutBounds(d, 0, cs);
  }

  lemma SeenIsFragile(d: seq<byte>, cs: seq<Code>, k: nat, p: nat)
    requires cs == Codes(d, 0) && k < |cs|
    requires NalStart(cs, k) <= p < NalEnd(d, cs, k) && Seen(Patched(d), p)
    ensures Fragile(d, cs, k)
  {
    NotSeenInside(d, cs, k, p);
    assert p + 4 <= |d|;
    hide Codes, Patched, Seen;
    NearbyFour(d, cs, k, p);
    SetByteMakesCode(d, Patched(d), p, if Idr(d, cs, k) then NalEnd(d, cs, k) - 1 else -1);
    hide WithSet;
  }

  lemma CodesUntouched(d: seq<byte>, cs: seq<Code>, k: nat)
    requires cs == Codes(d, 0) && k < |cs|
    ensures Seen(Patched(d), cs[k].pos) && CodeAt(Patched(d), cs[k].pos) == cs[k]
  {
    CodeIsSeen(d, cs, k);
    hide Codes, Patched;
    var p := cs[k].pos;
    CodeByte(d, cs, k, p);
    CodeByte(d, cs, k, p + 1);
    CodeByte(d, cs, k, p + 2);
    if cs[k].len == 4 {
      CodeByte(d, cs, k, p + 3);
    }
    SameCode(d, Patched(d), p);
  }

  lemma CodeIsSeen(d: seq<byte>, cs: seq<Code>, k: nat)
    requires cs == Codes(d, 0) && k < |cs|
    ensures cs[k].pos + 4 <= |d| == |Patched(d)|
    ensures Seen(d, cs[k].pos) && cs[k] == CodeAt(d, cs[k].pos) && 3 <= cs[k].len <= 4
  {
    PatchLength(d);
    RegionsOfScan(d);
    LayoutBounds(d, 0, cs);
    hide Codes, Layout, Patched, Inside;
  }

  /** A code is known by its own bytes. */
  lemma SameCode(d: seq<byte>, r: seq<byte>, p: nat)
    requires |r| == |d| && Seen(d, p) && r[p] == d[p] && r[p + 1] == d[p + 1] && r[p + 2] == d[p + 2]
    requires CodeAt(d, p).len == 4 ==> r[p + 3] == d[p + 3]
    ensures Seen(r, p) && CodeAt(r, p) == CodeAt(d, p)
  {
  }

  lemma NothingInFront(d: seq<byte>, cs: seq<Code>, p: nat)
    requires cs == Codes(d, 0) && p < (if cs == [] then |d| else cs[0].pos)
    ensures !Seen(d, p) && (cs != [] ==> p + 3 < NalStart(cs, 0))
  {
    RegionsOfScan(d);
    LayoutBounds(d, 0, cs);
  }

  lemma FrontFour(d: seq<byte>, cs: seq<Code>, p: nat)
    requires cs == Codes(d, 0) && p + 4 <= |d| && (cs != [] ==> p + 3 < NalStart(cs, 0))
    ensures var r := Patched(d);
            |r| == |d| && r[p] == d[p] && r[p + 1] == d[p + 1] && r[p + 2] == d[p + 2] && r[p + 3] == d[p + 3]
  {
    hide Codes, Patched, NalStart;
    FrontByte(d, cs, p);
    FrontByte(d, cs, p + 1);
    FrontByte(d, cs, p + 2);
    FrontByte(d, cs, p + 3);
  }

  lemma FrontUntouched(d: seq<byte>, cs: seq<Code>, p: nat)
    requires cs == Codes(d, 0) && p < (if cs == [] then |d| else cs[0].pos)
    ensures !Seen(Patched(d), p)
  {
    PatchLength(d);
    hide Codes, Patched, NalStart;
    NothingInFront(d, cs, p);
    if p + 4 <= |d| {
      FrontFour(d, cs, p);
    }
  }

  /** The patched stream has the same start codes if and only if no NAL is fragile. */
  lemma PatchKeepsFraming(d: seq<byte>)
    ensures Codes(Patched(d), 0) == Codes(d, 0) <==> FramingSafe(d)
  {
    var cs, r := Codes(d, 0), Patched(d);
    PatchLength(d);
    RegionsOfScan(d);
    LayoutBounds(d, 0, cs);
    SameInside(d, r, cs);
    hide Codes, Layout, Patched, Fragile, Seen, CodeAt;
    if FramingSafe(d) {
      forall k, p | 0 <= k < |cs| && NalStart(cs, k) <= p < NalEnd(r, cs, k)
        ensures !Seen(r, p)
      {
        if Seen(r, p) {
          SeenIsFragile(d, cs, k, p);
        }
      }
      forall k | 0 <= k < |cs|
        ensures cs[k] == CodeAt(r, cs[k].pos) && Seen(r, cs[k].pos)
      {
        CodesUntouched(d, cs, k);
      }
      forall p | 0 <= p < (if cs == [] then |d| else cs[0].pos)
        ensures !Seen(r, p)
      {
        FrontUntouched(d, cs, p);
      }
      RegionsAreLayout(r, 0, cs);
      ScanIsLayout(r, 0, cs);
    }
    if Codes(r, 0) == cs {
      ScanIsLayout(r, 0, cs);
      LayoutBounds(r, 0, cs);
      forall k | 0 <= k < |cs|
        ensures !Fragile(d, cs, k)
      {
        if Fragile(d, cs, k) {
          FragileIsSeen(d, cs, k);
        }
      }
    }
  }

  /** A stream whose NALs never end in a zero byte is safe... */
  lemma NoTrailingZeroIsSafe(d: seq<byte>)
    requires var cs := Codes(d, 0);
             forall k :: 0 <= k < |cs| && NalStart(cs, k) < NalEnd(d, cs, k) <= |d| ==> d[NalEnd(d, cs, k) - 1] != 0
    ensures FramingSafe(d)
  {
  }

  lemma TypeUnchanged(d: seq<byte>, cs: seq<Code>, m: nat)
    requires cs == Codes(d, 0) && m < |cs| && Idr(Patched(d), cs, m)
    ensures Idr(d, cs, m)
  {
    PatchLength(d);
    hide Codes, Patched;
    NearbyByte(d, cs, m, NalStart(cs, m));
  }

  /** ... and on a safe stream patching twice is patching once. */
  lemma PatchTwice(d: seq<byte>)
    requires FramingSafe(d)
    ensures Patched(Patched(d)) == Patched(d)
  {
    var cs, r := Codes(d, 0), Patched(d);
    PatchKeepsFraming(d);
    PatchLength(d);
    PatchLength(r);
    SameInside(d, r, cs);
    hide Codes, FramingSafe, Patched, Idr;
    forall i | 0 <= i < |d|
      ensures Patched(r)[i] == r[i]
    {
      PatchTouches(d, i);
      PatchTouches(r, i);
      forall m | 0 <= m < |cs| && Idr(r, cs, m)
        ensures Idr(d, cs, m)
      {
        TypeUnchanged(d, cs, m);
      }
      assert Touched(r, cs, 0, i) ==> Touched(d, cs, 0, i);
      assert (d[i] | 1) | 1 == d[i] | 1;
    }
  }

  /** An IDR NAL that ends the file with four zeros: the patch makes a second start code. */
  lemma FourZerosBecomeCode()
    ensures var d: seq<byte> := [0, 0, 1, 0x65, 0, 0, 0, 0];
            && Patched(d) == [0, 0, 1, 0x65, 0, 0, 0, 1]
            && Codes(d, 0) == [Code(0, 3)] && Codes(Patched(d), 0) == [Code(0, 3), Code(4, 4)]
            && !FramingSafe(d)
  {
    var d: seq<byte> := [0, 0, 1, 0x65, 0, 0, 0, 0];
    var e: seq<byte> := [0, 0, 1, 0x65, 0, 0, 0, 1];
    var cs := [Code(0, 3)];
    CodesOfEight(d, 0);
    CodesOfEight(e, 1);
    hide Codes;
    assert Idr(d, cs, 0) && Fragile(d, cs, 0);
    assert d[7 := d[7] | 1] == e;
    assert PatchFrom(e, cs, 1) == e;
  }

  lemma CodesOfEight(d: seq<byte>, last: byte)
    requires d == [0, 0, 1, 0x65, 0, 0, 0, last] && last <= 1
    ensures Codes(d, 0) == if last == 1 then [Code(0, 3), Code(4, 4)] else [Code(0, 3)]
  {
    assert Codes(d, 8) == [] && Codes(d, 5) == [];
    assert Codes(d, 4) == if last == 1 then [Code(4, 4)] else [];
    assert Codes(d, 3) == Codes(d, 4);
  }
}
