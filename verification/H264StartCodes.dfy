/** The Annex B start-code scanner and the NAL units cut out between start codes. */
module H264StartCodes {
  import opened Basics

  /** A start code found at `pos`, three or four bytes long. */
  datatype Code = Code(pos: nat, len: nat)

  predicate At3(d: seq<byte>, i: int) {
    0 <= i && i + 3 <= |d| && d[i] == 0 && d[i + 1] == 0 && d[i + 2] == 1
  }

  predicate At4(d: seq<byte>, i: int) {
    0 <= i && i + 4 <= |d| && d[i] == 0 && d[i + 1] == 0 && d[i + 2] == 0 && d[i + 3] == 1
  }

  /** The scanner stops three bytes before the end, so a code there goes unseen. */
  predicate Seen(d: seq<byte>, i: int) {
    i + 4 <= |d| && (At3(d, i) || At4(d, i))
  }

  function CodeAt(d: seq<byte>, i: nat): Code
  {
    Code(i, if At3(d, i) then 3 else 4)
  }

  /** The start codes the scanner reports from position i on. */
  function Codes(d: seq<byte>, i: nat): seq<Code>
    decreases |d| - i
  {
    if i + 3 >= |d| then []
    else if At3(d, i) then [Code(i, 3)] + Codes(d, i + 3)
    else if At4(d, i) then [Code(i, 4)] + Codes(d, i + 4)
    else Codes(d, i + 1)
  }

  lemma SliceIsCode(d: seq<byte>, i: nat)
    requires i + 4 <= |d|
    ensures d[i..i + 3] == [0, 0, 1] <==> At3(d, i)
    ensures d[i..i + 4] == [0, 0, 0, 1] <==> At4(d, i)
  {
    var t, f := d[i..i + 3], d[i..i + 4];
    assert t[0] == d[i] && t[1] == d[i + 1] && t[2] == d[i + 2];
    assert f[0] == d[i] && f[1] == d[i + 1] && f[2] == d[i + 2] && f[3] == d[i + 3];
  }

  method FindStartCodes(d: seq<byte>) returns (cs: seq<Code>)
    ensures cs == Codes(d, 0)
  {
    cs := [];
    var i := 0;
    while i + 3 < |d|
      invariant cs + Codes(d, i) == Codes(d, 0)
    {
      SliceIsCode(d, i);
      if d[i..i + 3] == [0, 0, 1] {
        cs := cs + [Code(i, 3)];
        i := i + 3;
      } else if d[i..i + 4] == [0, 0, 0, 1] {
        cs := cs + [Code(i, 4)];
        i := i + 4;
      } else {
        i := i + 1;
      }
    }
  }

  function Slice(d: seq<byte>, a: nat, b: nat): seq<byte> {
    if a <= b <= |d| then d[a..b] else []
  }

  /** Where NAL number k begins and ends. */
  function NalStart(cs: seq<Code>, k: nat): nat
    requires k < |cs|
  {
    cs[k].pos + cs[k].len
  }

  function NalEnd(d: seq<byte>, cs: seq<Code>, k: nat): nat
    requires k < |cs|
  {
    if k + 1 < |cs| then cs[k + 1].pos else |d|
  }

  function Nal(d: seq<byte>, cs: seq<Code>, k: nat): seq<byte>
    requires k < |cs|
  {
    Slice(d, NalStart(cs, k), NalEnd(d, cs, k))
  }

  /** An empty NAL is passed over. */
  function Reported(nal: seq<byte>): seq<seq<byte>> {
    if nal == [] then [] else [nal]
  }

  /** The NALs from number k on, in order. */
  function NalsFrom(d: seq<byte>, cs: seq<Code>, k: nat): seq<seq<byte>>
    requires k <= |cs|
    decreases |cs| - k
  {
    if k == |cs| then [] else Reported(Nal(d, cs, k)) + NalsFrom(d, cs, k + 1)
  }

  function Nals(d: seq<byte>): seq<seq<byte>> {
    NalsFrom(d, Codes(d, 0), 0)
  }

  /** The slicing loop of the program's main. */
  method SliceNals(d: seq<byte>) returns (nals: seq<seq<byte>>)
    ensures nals == Nals(d)
  {
    hide Codes, Nal, Reported;
    var cs := FindStartCodes(d);
    nals := [];
    for k := 0 to |cs|
      invariant nals + NalsFrom(d, cs, k) == Nals(d)
    {
      var nal := CutNal(d, cs, k);
      if nal != [] {
        nals := nals + [nal];
      }
      assert Reported(nal) == if nal == [] then [] else [nal] by {
        ReportedIs(nal);
      }
    }
  }

  lemma ReportedIs(nal: seq<byte>)
    ensures Reported(nal) == if nal == [] then [] else [nal]
  {
  }

  method CutNal(d: seq<byte>, cs: seq<Code>, k: nat) returns (nal: seq<byte>)
    requires k < |cs|
    ensures nal == Nal(d, cs, k)
  {
    var start := cs[k].pos + cs[k].len;
    var end := if k + 1 < |cs| then cs[k + 1].pos else |d|;
    nal := if start <= end <= |d| then d[start..end] else [];
  }

  // ======== what a scan result looks like ========

  /** cs is the scan of d from i: codes where they are seen, nothing seen in between. */
  predicate Layout(d: seq<byte>, i: nat, cs: seq<Code>)
    decreases |cs|
  {
    if cs == [] then forall p :: i <= p < |d| ==> !Seen(d, p)
    else
      && i <= cs[0].pos && Seen(d, cs[0].pos) && cs[0] == CodeAt(d, cs[0].pos)
      && (forall p :: i <= p < cs[0].pos ==> !Seen(d, p))
      && Layout(d, cs[0].pos + cs[0].len, cs[1..])
  }

  lemma {:induction false} NothingSeen(d: seq<byte>, i: nat, j: nat)
    requires i <= j && forall p :: i <= p < j ==> !Seen(d, p)
    ensures Codes(d, i) == Codes(d, j)
    decreases j - i
  {
    if i < j && i + 3 < |d| {
      assert !Seen(d, i);
      NothingSeen(d, i + 1, j);
    }
  }

  /** The scan has this layout and is the only list of codes that has it. */
  lemma {:induction false} ScanIsLayout(d: seq<byte>, i: nat, cs: seq<Code>)
    ensures Layout(d, i, cs) <==> cs == Codes(d, i)
    decreases |d| - i, |cs|
  {
    if i + 3 >= |d| {
      assert forall p :: i <= p ==> !Seen(d, p);
    } else if Seen(d, i) {
      var c := CodeAt(d, i);
      assert Codes(d, i) == [c] + Codes(d, i + c.len);
      if cs != [] {
        ScanIsLayout(d, i + c.len, cs[1..]);
        if Layout(d, i, cs) {
          assert cs[0].pos == i;
          assert cs == [c] + cs[1..];
        }
      }
    } else {
      ScanIsLayout(d, i + 1, cs);
      if Layout(d, i, cs) && cs != [] {
        assert cs[0].pos != i;
      }
      assert Layout(d, i, cs) <==> Layout(d, i + 1, cs);
    }
  }
}
