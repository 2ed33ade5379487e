/** Emulation prevention (section 7.4.1 of ITU-T H.264): what the standard's escaping
    does, and exactly when the program's removal undoes it. */
module H264Emulation {
  import opened Basics
  import opened H264StartCodes
  import opened H264AnnexB

  /** The result of removing every 00 00 03 pattern's third byte, left to right. */
  function Unescape(s: seq<byte>): seq<byte> {
    if |s| >= 3 && s[0] == 0 && s[1] == 0 && s[2] == 3 then [0, 0] + Unescape(s[3..])
    else if s == [] then []
    else [s[0]] + Unescape(s[1..])
  }

  method RemoveEmulationPrevention(rbsp: seq<byte>) returns (out: seq<byte>)
    ensures out == Unescape(rbsp)
  {
    out := [];
    var i := 0;
    assert rbsp[0..] == rbsp && Unescape(rbsp[|rbsp|..]) == [];
    hide Unescape;
    while i < |rbsp|
      invariant 0 <= i <= |rbsp|
      invariant out + Unescape(rbsp[i..]) == Unescape(rbsp)
    {
      UnescapeNext(rbsp, i);
      if i + 2 < |rbsp| && rbsp[i] == 0 && rbsp[i + 1] == 0 && rbsp[i + 2] == 3 {
        AppendMore(out, [0, 0], Unescape(rbsp[i + 3..]));
        out := out + [0, 0];
        i := i + 3;
      } else {
        AppendMore(out, [rbsp[i]], Unescape(rbsp[i + 1..]));
        out := out + [rbsp[i]];
        i := i + 1;
      }
    }
  }

  lemma AppendMore(x: seq<byte>, y: seq<byte>, z: seq<byte>)
    ensures x + (y + z) == x + y + z
  {
  }

  /** The removal read off from position i of a buffer. */
  lemma UnescapeNext(s: seq<byte>, i: nat)
    requires i < |s|
    ensures Unescape(s[i..]) ==
              if i + 2 < |s| && s[i] == 0 && s[i + 1] == 0 && s[i + 2] == 3 then [0, 0] + Unescape(s[i + 3..])
              else [s[i]] + Unescape(s[i + 1..])
  {
    var rest := s[i..];
    assert rest[1..] == s[i + 1..];
    assert i + 2 < |s| ==> rest[3..] == s[i + 3..];
  }

  /** The standard's escaping of a payload when z zero bytes (at most two) have just been
      sent: a byte up to 03 behind two zeros gets 03 in front of it. */
  function Escape(s: seq<byte>, z: nat): seq<byte> {
    if s == [] then []
    else if z == 2 && s[0] <= 3 then [3, s[0]] + Escape(s[1..], if s[0] == 0 then 1 else 0)
    else [s[0]] + Escape(s[1..], if s[0] == 0 then z + 1 else 0)
  }

  /** The NAL payload: a payload ending in 00 also gets a final 03. */
  function EscapePayload(s: seq<byte>): seq<byte> {
    Escape(s, 0) + if s != [] && s[|s| - 1] == 0 then [3] else []
  }

  function Zeros(z: nat): (s: seq<byte>)
    ensures |s| == z && forall i :: 0 <= i < z ==> s[i] == 0
  {
    seq(z, _ => 0)
  }

  /** How many zeros the escaped form ends in, not counting past two. */
  function EndZeros(s: seq<byte>, z: nat): nat {
    if s == [] then z
    else if z == 2 && s[0] <= 3 then EndZeros(s[1..], if s[0] == 0 then 1 else 0)
    else EndZeros(s[1..], if s[0] == 0 then z + 1 else 0)
  }

  lemma UnescapePlain(b: byte, s: seq<byte>)
    requires b != 0
    ensures Unescape([b] + s) == [b] + Unescape(s)
  {
    assert ([b] + s)[1..] == s;
  }

  lemma UnescapeZeroPlain(b: byte, s: seq<byte>)
    requires b != 0
    ensures Unescape([0, b] + s) == [0, b] + Unescape(s)
  {
    assert ([0, b] + s)[1..] == [b] + s;
    UnescapePlain(b, s);
  }

  lemma UnescapeTwoZerosPlain(b: byte, s: seq<byte>)
    requires b != 0 && b != 3
    ensures Unescape([0, 0, b] + s) == [0, 0, b] + Unescape(s)
  {
    assert ([0, 0, b] + s)[1..] == [0, b] + s;
    UnescapeZeroPlain(b, s);
  }

  lemma UnescapeMarked(s: seq<byte>)
    ensures Unescape([0, 0, 3] + s) == [0, 0] + Unescape(s)
  {
    assert ([0, 0, 3] + s)[3..] == s;
  }

  lemma UnescapeZerosOnly(z: nat, final: bool)
    requires z <= 2
    ensures Unescape(Zeros(z) + Tail(final)) == Zeros(z) + Tail(final && z < 2)
  {
    var t := Tail(final);
    assert z == 0 ==> Zeros(z) + t == t;
    assert z == 1 ==> Zeros(z) + t == [0] + t;
    assert z == 2 ==> Zeros(z) + t == [0, 0] + t;
    assert Unescape([]) == [];
    assert Unescape([3]) == [3] + Unescape([]);
    assert [0, 3][1..] == [3] && [0, 0][1..] == [0] && [0][1..] == [] && [0, 0, 3][3..] == [];
  }

  function Tail(final: bool): seq<byte> {
    if final then [3] else []
  }

  /** Whether the final 03 is still there after removal. */
  function Left(s: seq<byte>, z: nat, final: bool): seq<byte> {
    Tail(final && EndZeros(s, z) < 2)
  }

  /** Zeros sent so far, after one more payload byte b. */
  function NextZeros(z: nat, b: byte): nat {
    if b != 0 then 0 else if z == 2 then 1 else z + 1
  }

  lemma EscapeStep(s: seq<byte>, z: nat, f: seq<byte>)
    requires s != [] && z <= 2
    ensures Escape(s, z) + f ==
            (if z == 2 && s[0] <= 3 then [3, s[0]] else [s[0]]) + (Escape(s[1..], NextZeros(z, s[0])) + f)
    ensures EndZeros(s, z) == EndZeros(s[1..], NextZeros(z, s[0]))
  {
  }

  lemma MarkedByte(b: byte, o: seq<byte>, r: seq<byte>)
    requires b <= 3
    requires if b == 0 then Unescape([0] + o) == [0] + r else Unescape(o) == r
    ensures Unescape([0, 0] + ([3, b] + o)) == [0, 0] + ([b] + r)
  {
    hide Unescape;
    assert [0, 0] + ([3, b] + o) == [0, 0, 3] + ([b] + o);
    UnescapeMarked([b] + o);
    if b != 0 {
      UnescapePlain(b, o);
    }
  }

  lemma PlainByte(z: nat, b: byte, o: seq<byte>, r: seq<byte>)
    requires z <= 2 && b != 0 && (z == 2 ==> b != 3) && Unescape(o) == r
    ensures Unescape(Zeros(z) + ([b] + o)) == Zeros(z) + ([b] + r)
  {
    hide Unescape;
    if z == 0 {
      assert Zeros(z) + ([b] + o) == [b] + o;
      assert Zeros(z) + ([b] + r) == [b] + r;
      UnescapePlain(b, o);
    } else if z == 1 {
      assert Zeros(z) + ([b] + o) == [0, b] + o;
      assert Zeros(z) + ([b] + r) == [0, b] + r;
      UnescapeZeroPlain(b, o);
    } else {
      assert Zeros(z) + ([b] + o) == [0, 0, b] + o;
      assert Zeros(z) + ([b] + r) == [0, 0, b] + r;
      UnescapeTwoZerosPlain(b, o);
    }
  }

  lemma ZerosFacts(z: nat, x: seq<byte>)
    ensures Zeros(0) + x == x && Zeros(1) + x == [0] + x && Zeros(2) + x == [0, 0] + x
    ensures Zeros(z) + ([0] + x) == Zeros(z + 1) + x
  {
  }

  /** One payload byte: if removal undoes the rest, it undoes the byte as well. */
  lemma OneByte(z: nat, b: byte, o: seq<byte>, r: seq<byte>)
    requires z <= 2 && Unescape(Zeros(NextZeros(z, b)) + o) == Zeros(NextZeros(z, b)) + r
    ensures Unescape(Zeros(z) + ((if z == 2 && b <= 3 then [3, b] else [b]) + o)) == Zeros(z) + ([b] + r)
  {
    hide Unescape, Zeros;
    ZerosFacts(z, o);
    ZerosFacts(z, r);
    if z == 2 && b <= 3 {
      MarkedByte(b, o, r);
      ZerosFacts(z, [3, b] + o);
      ZerosFacts(z, [b] + r);
    } else if b != 0 {
      PlainByte(z, b, o, r);
    }
  }

  /** Removal undoes escaping; a final 03 goes too exactly when two zeros precede it. */
  lemma {:induction false} UnescapeEscape(s: seq<byte>, z: nat, final: bool)
    requires z <= 2
    ensures Unescape(Zeros(z) + (Escape(s, z) + Tail(final))) == Zeros(z) + (s + Left(s, z, final))
    decreases |s|
  {
    if s == [] {
      UnescapeNothing(z, final);
    } else {
      var y, g := NextZeros(z, s[0]), Left(s, z, final);
      EscapeStep(s, z, Tail(final));
      hide Unescape, Zeros, Escape, EndZeros, Tail, NextZeros;
      UnescapeEscape(s[1..], y, final);
      OneByte(z, s[0], Escape(s[1..], y) + Tail(final), s[1..] + g);
      HeadFirst(s, g);
    }
  }

  lemma HeadFirst(s: seq<byte>, g: seq<byte>)
    requires s != []
    ensures s + g == [s[0]] + (s[1..] + g)
  {
  }

  lemma UnescapeNothing(z: nat, final: bool)
    requires z <= 2
    ensures Unescape(Zeros(z) + (Escape([], z) + Tail(final))) == Zeros(z) + ([] + Left([], z, final))
  {
    UnescapeZerosOnly(z, final);
    assert [] + Tail(final) == Tail(final) && [] + Left([], z, final) == Left([], z, final);
  }

  // ======== trailing zeros ========

  function TrailingZeros(s: seq<byte>): nat {
    if s == [] || s[|s| - 1] != 0 then 0 else 1 + TrailingZeros(s[..|s| - 1])
  }

  lemma {:induction false} TrailingZerosHead(b: byte, t: seq<byte>)
    ensures TrailingZeros([b] + t) == TrailingZeros(t) + (if TrailingZeros(t) == |t| && b == 0 then 1 else 0)
    ensures TrailingZeros(t) <= |t|
  {
    var s := [b] + t;
    if t == [] {
      assert s[..0] == [];
    } else {
      assert s[..|s| - 1] == [b] + t[..|t| - 1];
      TrailingZerosHead(b, t[..|t| - 1]);
    }
  }

  /** The zeros at the end of the escaped form follow the parity of the zero run. */
  lemma {:induction false} EndZerosParity(s: seq<byte>, z: nat)
    requires z <= 2
    ensures var run := TrailingZeros(s) + if TrailingZeros(s) == |s| then z else 0;
            EndZeros(s, z) == if run == 0 then 0 else if run % 2 == 1 then 1 else 2
    decreases |s|
  {
    if s != [] {
      assert s == [s[0]] + s[1..];
      TrailingZerosHead(s[0], s[1..]);
      EndZerosParity(s[1..], if s[0] != 0 then 0 else if z == 2 then 1 else z + 1);
    }
  }

  /** Without the final 03 every payload comes back. */
  lemma EscapeRoundTrip(s: seq<byte>)
    ensures Unescape(Escape(s, 0)) == s
  {
    UnescapeEscape(s, 0, false);
    assert Zeros(0) + (Escape(s, 0) + []) == Escape(s, 0);
    assert Zeros(0) + (s + []) == s;
  }

  /** With the standard's final 03, exactly the payloads ending in an even number of zero
      bytes come back, which includes every run of two-byte cabac_zero_words. */
  lemma PayloadRoundTrip(s: seq<byte>)
    ensures Unescape(EscapePayload(s)) == s <==> TrailingZeros(s) % 2 == 0
  {
    var final := s != [] && s[|s| - 1] == 0;
    var g := Left(s, 0, final);
    UnescapeEscape(s, 0, final);
    ZerosFacts(0, Escape(s, 0) + Tail(final));
    ZerosFacts(0, s + g);
    MarkIsLeft(s, final);
    hide Unescape, Escape, Zeros, Left, TrailingZeros;
    assert g != [] ==> |s + g| != |s|;
    assert s + [] == s;
  }

  lemma MarkIsLeft(s: seq<byte>, final: bool)
    requires final <==> s != [] && s[|s| - 1] == 0
    ensures Left(s, 0, final) == [] <==> TrailingZeros(s) % 2 == 0
    ensures EscapePayload(s) == Escape(s, 0) + Tail(final)
  {
    hide EndZeros, Escape, TrailingZeros;
    FinalZeros(s);
    ZerosAtEnd(s);
  }

  lemma ZerosAtEnd(s: seq<byte>)
    ensures var n := TrailingZeros(s);
            EndZeros(s, 0) < 2 <==> n == 0 || n % 2 == 1
  {
    hide EndZeros, TrailingZeros;
    EndZerosParity(s, 0);
  }

  lemma FinalZeros(s: seq<byte>)
    ensures TrailingZeros(s) == 0 <==> s == [] || s[|s| - 1] != 0
  {
  }

  /** One zero at the end: the final 03 stays. */
  lemma OddTailKeepsMark()
    ensures Unescape(EscapePayload([1, 0])) == [1, 0, 3] && TrailingZeros([1, 0]) == 1
  {
    var s: seq<byte> := [1, 0];
    assert s[1..] == [0] && s[..1] == [1];
    assert Escape([0], 0) == [0] + Escape([], 1);
    assert Escape(s, 0) == [1, 0];
    var o: seq<byte> := [1, 0, 3];
    assert o[1..] == [0, 3] && [0, 3][1..] == [3] && [3][1..] == [];
    assert Unescape([3]) == [3] && Unescape([0, 3]) == [0, 3];
  }

  // ======== no start code inside ========

  /** Behind two zeros nothing below 03 follows. */
  predicate Guarded(o: seq<byte>) {
    forall i :: 0 <= i && i + 3 <= |o| && o[i] == 0 && o[i + 1] == 0 ==> o[i + 2] >= 3
  }

  /** The same, read from the front with z zeros already seen. */
  predicate GuardedFrom(o: seq<byte>, z: nat) {
    o == [] || ((z == 2 ==> o[0] >= 3) && GuardedFrom(o[1..], if o[0] == 0 then z + 1 else 0))
  }

  lemma GuardedCons(b: byte, o: seq<byte>, z: nat)
    requires (z == 2 ==> b >= 3) && GuardedFrom(o, if b == 0 then z + 1 else 0)
    ensures GuardedFrom([b] + o, z)
  {
    assert ([b] + o)[1..] == o;
  }

  lemma {:induction false} EscapeGuards(s: seq<byte>, z: nat, final: bool)
    requires z <= 2
    ensures GuardedFrom(Escape(s, z) + Tail(final), z)
    decreases |s|
  {
    var f := Tail(final);
    if s == [] {
      assert Escape(s, z) + f == f;
    } else {
      var b, t := s[0], s[1..];
      var y := NextZeros(z, b);
      EscapeGuards(t, y, final);
      EscapeStep(s, z, f);
      var o := Escape(t, y) + f;
      hide Escape, GuardedFrom;
      if z == 2 && b <= 3 {
        GuardedCons(b, o, 0);
        GuardedCons(3, [b] + o, 2);
        assert [3] + ([b] + o) == [3, b] + o;
      } else {
        GuardedCons(b, o, z);
      }
    }
  }

  /** Two zeros found at position i of z zeros followed by o stand before a byte of 03 or more. */
  lemma {:induction false} GuardedFromIs(o: seq<byte>, z: nat, i: nat)
    requires z <= 2 && GuardedFrom(o, z)
    requires i + 3 <= z + |o|
    requires (i >= z ==> o[i - z] == 0) && (i + 1 >= z ==> o[i + 1 - z] == 0)
    ensures i + 2 >= z && o[i + 2 - z] >= 3
    decreases |o|
  {
    if z == 2 && i == 0 {
    } else if o[0] == 0 {
      GuardedFromIs(o[1..], z + 1, i);
    } else {
      assert i >= z ==> o[i - z] == 0;
      assert i + 1 >= z ==> o[i + 1 - z] == 0;
      assert i > z;
      GuardedFromIs(o[1..], 0, i - z - 1);
    }
  }

  lemma GuardedFromGuards(o: seq<byte>)
    requires GuardedFrom(o, 0)
    ensures Guarded(o)
  {
    forall i | 0 <= i && i + 3 <= |o| && o[i] == 0 && o[i + 1] == 0
      ensures o[i + 2] >= 3
    {
      GuardedFromIs(o, 0, i);
    }
  }

  lemma {:induction false} EscapeEnds(s: seq<byte>, z: nat)
    requires s != []
    ensures Escape(s, z) != [] && Escape(s, z)[|Escape(s, z)| - 1] == s[|s| - 1]
    decreases |s|
  {
    if |s| > 1 {
      EscapeEnds(s[1..], if s[0] != 0 then 0 else if z == 2 then 1 else z + 1);
    } else {
      assert Escape(s[1..], 0) == [] && Escape(s[1..], 1) == [] && Escape(s[1..], z + 1) == [];
    }
  }

  // ======== the whole byte stream ========

  /** A NAL unit to be sent: header byte, payload, length of its start code. */
  datatype Sent = Sent(header: byte, payload: seq<byte>, long: bool)

  function Encode(xs: seq<Sent>): seq<Unit> {
    if xs == [] then [] else [Unit(xs[0].long, [xs[0].header] + EscapePayload(xs[0].payload))] + Encode(xs[1..])
  }

  /** Escaped behind a header that is not zero, a payload holds no start code. */
  lemma EscapedIsGuarded(h: byte, s: seq<byte>)
    requires h != 0
    ensures Guarded([h] + EscapePayload(s)) && Guarded(EscapePayload(s))
  {
    var final := s != [] && s[|s| - 1] == 0;
    var o := EscapePayload(s);
    EscapeGuards(s, 0, final);
    assert o == Escape(s, 0) + Tail(final);
    hide Escape, EscapePayload;
    GuardedFromGuards(o);
    assert ([h] + o)[1..] == o;
    GuardedFromGuards([h] + o);
  }

  lemma GuardedHasNoCode(nal: seq<byte>)
    requires Guarded(nal)
    ensures (forall p :: 0 <= p ==> !At3(nal, p)) && forall p :: 0 <= p < |nal| ==> !Seen(nal, p)
  {
    forall p | 0 <= p < |nal|
      ensures !Seen(nal, p)
    {
      assert !At3(nal, p) && !At3(nal, p + 1);
    }
  }

  lemma SentNal(x: Sent)
    requires x.header != 0
    ensures var nal := [x.header] + EscapePayload(x.payload);
            && (forall p :: 0 <= p ==> !At3(nal, p)) && (forall p :: 0 <= p < |nal| ==> !Seen(nal, p))
            && nal[|nal| - 1] != 0
  {
    EscapedIsGuarded(x.header, x.payload);
    GuardedHasNoCode([x.header] + EscapePayload(x.payload));
    if x.payload != [] {
      EscapeEnds(x.payload, 0);
    }
    hide Escape, Guarded;
  }

  lemma {:induction false} EncodeSurvives(xs: seq<Sent>)
    requires forall x :: x in xs ==> x.header != 0
    ensures Survives(Encode(xs)) && |Encode(xs)| == |xs|
  {
    if xs != [] {
      assert xs[0] in xs;
      SentNal(xs[0]);
      assert forall x :: x in xs[1..] ==> x in xs;
      EncodeSurvives(xs[1..]);
      assert Encode(xs)[1..] == Encode(xs[1..]);
    }
  }

  /** The headers and payloads recovered from cut NALs. */
  function Decode(nals: seq<seq<byte>>): seq<(byte, seq<byte>)> {
    if nals == [] then [] else
      (if nals[0] == [] then [] else [(nals[0][0], Unescape(nals[0][1..]))]) + Decode(nals[1..])
  }

  function Contents(xs: seq<Sent>): seq<(byte, seq<byte>)> {
    if xs == [] then [] else [(xs[0].header, xs[0].payload)] + Contents(xs[1..])
  }

  predicate EvenTails(xs: seq<Sent>) {
    forall x :: x in xs ==> TrailingZeros(x.payload) % 2 == 0
  }

  lemma EncodeFirst(xs: seq<Sent>)
    requires xs != []
    ensures NalsOf(Encode(xs)) == [[xs[0].header] + EscapePayload(xs[0].payload)] + NalsOf(Encode(xs[1..]))
  {
    hide EscapePayload;
    assert Encode(xs)[1..] == Encode(xs[1..]);
  }

  lemma DecodeFirst(h: byte, s: seq<byte>, rest: seq<seq<byte>>)
    ensures Decode([[h] + s] + rest) == [(h, Unescape(s))] + Decode(rest)
  {
    hide Unescape;
    assert ([h] + s)[1..] == s;
    assert ([[h] + s] + rest)[1..] == rest;
  }

  lemma ContentsFirst(xs: seq<Sent>)
    requires xs != []
    ensures Contents(xs) == [(xs[0].header, xs[0].payload)] + Contents(xs[1..])
    ensures EvenTails(xs) <==> TrailingZeros(xs[0].payload) % 2 == 0 && EvenTails(xs[1..])
  {
    hide TrailingZeros;
    assert xs == [xs[0]] + xs[1..];
  }

  lemma SameFirst<T>(a: T, s: seq<T>, b: T, t: seq<T>)
    ensures [a] + s == [b] + t <==> a == b && s == t
  {
    assert ([a] + s)[0] == a && ([a] + s)[1..] == s;
    assert ([b] + t)[0] == b && ([b] + t)[1..] == t;
  }

  lemma {:induction false} DecodeEncode(xs: seq<Sent>)
    ensures Decode(NalsOf(Encode(xs))) == Contents(xs) <==> EvenTails(xs)
  {
    if xs != [] {
      hide *;
      var h, s := xs[0].header, xs[0].payload;
      DecodeEncode(xs[1..]);
      PayloadRoundTrip(s);
      EncodeFirst(xs);
      DecodeFirst(h, EscapePayload(s), NalsOf(Encode(xs[1..])));
      ContentsFirst(xs);
      SameFirst((h, Unescape(EscapePayload(s))), Decode(NalsOf(Encode(xs[1..]))), (h, s), Contents(xs[1..]));
    }
  }

  /** End to end: escape, join with any mix of start codes, scan, slice, unescape.  With
      non-zero header bytes the units come back exactly when every payload ends in an
      even number of zero bytes. */
  lemma StreamRoundTrip(xs: seq<Sent>)
    requires forall x :: x in xs ==> x.header != 0
    ensures Nals(Join(Encode(xs))) == NalsOf(Encode(xs))
    ensures Decode(Nals(Join(Encode(xs)))) == Contents(xs) <==> EvenTails(xs)
  {
    EncodeSurvives(xs);
    ByteStreamRoundTrip(Encode(xs));
    DecodeEncode(xs);
  }

  // ======== trailing bits ========

  datatype Found = Nothing | Found(index: nat, value: byte)

  lemma NoBitIsZero(b: byte)
    requires forall n :: 0 <= n < 8 ==> !Bit(b, n)
    ensures b == 0
  {
    assert !Bit(b, 0) && !Bit(b, 1) && !Bit(b, 2) && !Bit(b, 3);
    assert !Bit(b, 4) && !Bit(b, 5) && !Bit(b, 6) && !Bit(b, 7);
  }

  /** The last set bit of the payload, searched bit by bit from the end: the byte that
      holds it is the last byte that is not zero. */
  method FindRbspTrailingBits(rbsp: seq<byte>) returns (r: Found)
    ensures r == Nothing <==> forall k :: 0 <= k < |rbsp| ==> rbsp[k] == 0
    ensures r.Found? ==> r.index < |rbsp| && r.value == rbsp[r.index] != 0
    ensures r.Found? ==> forall k :: r.index < k < |rbsp| ==> rbsp[k] == 0
  {
    var bitPos := |rbsp| * 8;
    while bitPos > 0
      invariant 0 <= bitPos <= |rbsp| * 8
      invariant forall k :: 0 <= k < |rbsp| && bitPos <= k * 8 ==> rbsp[k] == 0
      invariant bitPos % 8 != 0 ==> forall n :: 0 <= n < 8 - bitPos % 8 ==> !Bit(rbsp[bitPos / 8], n)
    {
      bitPos := bitPos - 1;
      var byteIndex, bitIndex := bitPos / 8, 7 - bitPos % 8;
      if Bit(rbsp[byteIndex], bitIndex) {
        return Found(byteIndex, rbsp[byteIndex]);
      }
      if bitPos % 8 == 0 {
        NoBitIsZero(rbsp[byteIndex]);
      }
    }
    return Nothing;
  }
}
