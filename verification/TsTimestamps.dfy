/** The 33-bit timestamp layouts of MPEG-2 systems (ISO/IEC 13818-1, sections 2.4.3.5
    and 2.4.3.7) and the arithmetic that reads them.  Shifts and masks are written as
    division, multiplication and remainder; the fields occupy disjoint bits, so or is sum. */
module TsTimestamps {
  import opened Basics

  const BITS33: nat := 0x2_0000_0000

  /** decode_pts over its five bytes. */
  function DecodePts(b0: octet, b1: octet, b2: octet, b3: octet, b4: octet): nat {
    b0 / 2 % 8 * 0x4000_0000 + b1 * 0x40_0000 + b2 / 2 * 0x8000 + b3 * 0x80 + b4 / 2
  }

  lemma PtsOrIsSum(b0: bv64, b1: bv64, b2: bv64, b3: bv64, b4: bv64)
    requires b0 < 256 && b1 < 256 && b2 < 256 && b3 < 256 && b4 < 256
    ensures ((((b0 >> 1) & 0x07) << 30) | (b1 << 22) | ((b2 >> 1) << 15) | (b3 << 7) | (b4 >> 1)) ==
            (((b0 >> 1) & 0x07) << 30) + (b1 << 22) + ((b2 >> 1) << 15) + (b3 << 7) + (b4 >> 1)
  {
  }

  /** The five bytes that carry a PTS: a four-bit prefix and three marker bits around it. */
  function PtsByte(prefix: nat, pts: nat, i: nat): octet
    requires prefix < 16 && pts < BITS33 && i < 5
  {
    match i
    case 0 => prefix * 16 + pts / 0x4000_0000 * 2 + 1
    case 1 => pts / 0x40_0000 % 256
    case 2 => pts / 0x8000 % 128 * 2 + 1
    case 3 => pts / 0x80 % 256
    case 4 => pts % 128 * 2 + 1
  }

  /** Cutting a number into its fields and putting them together again. */
  lemma PtsFields(pts: nat)
    requires pts < BITS33
    ensures pts / 0x4000_0000 * 0x4000_0000 + pts / 0x40_0000 % 256 * 0x40_0000 + pts / 0x8000 % 128 * 0x8000
            + pts / 0x80 % 256 * 0x80 + pts % 128 == pts
  {
    assert pts / 0x8000 == pts / 0x80 / 256;
    assert pts / 0x40_0000 == pts / 0x8000 / 128;
    assert pts / 0x4000_0000 == pts / 0x40_0000 / 256;
  }

  /** Every 33-bit PTS is read back from its layout, whatever the prefix. */
  lemma PtsRoundTrip(prefix: nat, pts: nat)
    requires prefix < 16 && pts < BITS33
    ensures DecodePts(PtsByte(prefix, pts, 0), PtsByte(prefix, pts, 1), PtsByte(prefix, pts, 2),
                      PtsByte(prefix, pts, 3), PtsByte(prefix, pts, 4)) == pts
  {
    PtsFields(pts);
    PtsTop(prefix, pts / 0x4000_0000);
  }

  lemma PtsTop(prefix: nat, top: nat)
    requires prefix < 16 && top < 8
    ensures (prefix * 16 + top * 2 + 1) / 2 % 8 == top
  {
    assert (prefix * 16 + top * 2 + 1) / 2 == prefix * 8 + top;
  }

  lemma PtsParts(b0: octet, b1: octet, b2: octet, b3: octet, b4: octet)
    ensures var pts := DecodePts(b0, b1, b2, b3, b4);
            && pts < BITS33 && pts % 128 == b4 / 2
            && pts / 0x80 == b0 / 2 % 8 * 0x80_0000 + b1 * 0x8000 + b2 / 2 * 0x100 + b3
            && pts / 0x8000 == b0 / 2 % 8 * 0x8000 + b1 * 0x80 + b2 / 2
            && pts / 0x40_0000 == b0 / 2 % 8 * 0x100 + b1
            && pts / 0x4000_0000 == b0 / 2 % 8
  {
    var pts, top, m, l := DecodePts(b0, b1, b2, b3, b4), b0 / 2 % 8, b2 / 2, b4 / 2;
    var q1 := top * 0x100 + b1;
    var q2 := q1 * 0x80 + m;
    var q3 := q2 * 0x100 + b3;
    assert pts == q3 * 0x80 + l;
    LowSeven(q3, l);
    LowEight(q2, b3);
    LowSeven(q1, m);
    LowEight(top, b1);
    DivideOn(pts);
  }

  lemma DivideOn(x: nat)
    ensures x / 0x8000 == x / 0x80 / 0x100
    ensures x / 0x40_0000 == x / 0x8000 / 0x80
    ensures x / 0x4000_0000 == x / 0x40_0000 / 0x100
  {
  }

  lemma MarkedByte(b: octet)
    ensures b % 2 == 1 <==> b == b / 2 * 2 + 1
    ensures b % 2 == 1 <==> b == b / 16 * 16 + b / 2 % 8 * 2 + 1
  {
  }

  lemma LowSeven(q: nat, c: nat)
    requires c < 128
    ensures (q * 0x80 + c) % 128 == c && (q * 0x80 + c) / 0x80 == q
  {
  }

  lemma LowEight(q: nat, b: octet)
    ensures (q * 0x100 + b) % 256 == b && (q * 0x100 + b) / 0x100 == q
  {
  }

  /** Five bytes with their marker bits set are the layout of the value decoded. */
  lemma PtsLayoutUnique(b0: octet, b1: octet, b2: octet, b3: octet, b4: octet)
    ensures DecodePts(b0, b1, b2, b3, b4) < BITS33
    ensures var pts := DecodePts(b0, b1, b2, b3, b4);
            b0 % 2 == 1 && b2 % 2 == 1 && b4 % 2 == 1 <==>
              b0 == PtsByte(b0 / 16, pts, 0) && b1 == PtsByte(b0 / 16, pts, 1) && b2 == PtsByte(b0 / 16, pts, 2) &&
              b3 == PtsByte(b0 / 16, pts, 3) && b4 == PtsByte(b0 / 16, pts, 4)
  {
    PtsParts(b0, b1, b2, b3, b4);
    hide DecodePts;
    MarkedByte(b0);
    MarkedByte(b2);
    MarkedByte(b4);
    LowEight(b0 / 2 % 8, b1);
    LowSeven(b0 / 2 % 8 * 0x100 + b1, b2 / 2);
    LowEight(b0 / 2 % 8 * 0x8000 + b1 * 0x80 + b2 / 2, b3);
  }

  /** parse_pcr over its six bytes, in 27 MHz units: 33 bits of base and nine of extension. */
  function DecodePcr(b0: octet, b1: octet, b2: octet, b3: octet, b4: octet, b5: octet): nat {
    (b0 * 0x200_0000 + b1 * 0x2_0000 + b2 * 0x200 + b3 * 2 + b4 / 128) * 300 + (b4 % 2 * 256 + b5)
  }

  lemma PcrOrIsSum(b0: bv64, b1: bv64, b2: bv64, b3: bv64, b4: bv64, b5: bv64)
    requires b0 < 256 && b1 < 256 && b2 < 256 && b3 < 256 && b4 < 256 && b5 < 256
    ensures ((b0 << 25) | (b1 << 17) | (b2 << 9) | (b3 << 1) | (b4 >> 7)) ==
            (b0 << 25) + (b1 << 17) + (b2 << 9) + (b3 << 1) + (b4 >> 7)
    ensures (((b4 & 1) << 8) | b5) == ((b4 & 1) << 8) + b5
  {
  }

  /** The six bytes of a clock value: the base, six reserved bits, the extension. */
  function PcrByte(v: nat, i: nat): octet
    requires v < 300 * BITS33 && i < 6
  {
    var base, ext := v / 300, v % 300;
    match i
    case 0 => base / 0x200_0000
    case 1 => base / 0x2_0000 % 256
    case 2 => base / 0x200 % 256
    case 3 => base / 2 % 256
    case 4 => base % 2 * 128 + 126 + ext / 256
    case 5 => ext % 256
  }

  lemma PcrFields(base: nat)
    requires base < BITS33
    ensures base / 0x200_0000 * 0x200_0000 + base / 0x2_0000 % 256 * 0x2_0000 + base / 0x200 % 256 * 0x200
            + base / 2 % 256 * 2 + base % 2 == base
  {
    assert base / 0x200 == base / 2 / 256;
    assert base / 0x2_0000 == base / 0x200 / 256;
    assert base / 0x200_0000 == base / 0x2_0000 / 256;
  }

  /** Every clock value below 300 times 2 to the 33 is read back from its layout. */
  lemma PcrRoundTrip(v: nat)
    requires v < 300 * BITS33
    ensures DecodePcr(PcrByte(v, 0), PcrByte(v, 1), PcrByte(v, 2), PcrByte(v, 3), PcrByte(v, 4), PcrByte(v, 5)) == v
  {
    PcrFields(v / 300);
    var base, ext := v / 300, v % 300;
    assert (base % 2 * 128 + 126 + ext / 256) / 128 == base % 2;
    assert (base % 2 * 128 + 126 + ext / 256) % 2 == ext / 256;
  }
}
