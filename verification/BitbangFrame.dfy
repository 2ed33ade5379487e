/** The serial frame of the bit-banged UART: one low start bit, eight data bits
    (least significant first), one even-parity bit and two high stop bits. */
module BitbangFrame {
  import opened Basics

  /** The xor-folding parity reduction: true for an odd number of ones. */
  function ParityEven8(x: byte): bool {
    var x1 := x ^ (x >> 4);
    var x2 := x1 ^ (x1 >> 2);
    var x3 := x2 ^ (x2 >> 1);
    x3 & 1 == 1
  }

  /** Shift a received bit in from the top. */
  function InsertBit(d: byte, v: bool): byte {
    (d >> 1) | ((if v then 1 else 0) << 7)
  }

  /** The eight data levels of a byte in the order they are sent. */
  function DataBits(d: byte): (s: seq<bool>)
    ensures |s| == 8 && forall i :: 0 <= i < 8 ==> s[i] == Bit(d, i)
  {
    seq(8, i requires 0 <= i < 8 => Bit(d, i))
  }

  /** The twelve line levels of one character. */
  function Frame(d: byte): (s: seq<bool>)
    ensures |s| == 12
  {
    [false] + DataBits(d) + [ParityEven8(d), true, true]
  }

  /** The level the transmitter drives at position k of a frame. */
  function Level(d: byte, k: nat): bool
    requires k < 12
  {
    if k == 0 then false
    else if k <= 8 then Bit(d, k - 1)
    else if k == 9 then ParityEven8(d)
    else true
  }

  lemma LevelIsFrame(d: byte, k: nat)
    requires k < 12
    ensures Frame(d)[k] == Level(d, k)
  {
    var b := DataBits(d);
    assert 1 <= k <= 8 ==> Frame(d)[k] == b[k - 1];
  }

  // -------- parity --------

  /** How many of the first n levels of s are high. */
  function CountHigh(s: seq<bool>, n: nat): nat
    requires n <= |s|
  {
    if n == 0 then 0 else CountHigh(s, n - 1) + if s[n - 1] then 1 else 0
  }

  lemma {:induction false} CountHighPrefix(s: seq<bool>, t: seq<bool>, n: nat)
    requires n <= |s| && n <= |t| && s[..n] == t[..n]
    ensures CountHigh(s, n) == CountHigh(t, n)
  {
    if n > 0 {
      assert s[n - 1] == s[..n][n - 1] == t[..n][n - 1] == t[n - 1];
      assert s[..n - 1] == s[..n][..n - 1] == t[..n - 1];
      CountHighPrefix(s, t, n - 1);
    }
  }

  function XorOf(s: seq<bool>, n: nat): bool
    requires n <= |s|
  {
    if n == 0 then false else XorOf(s, n - 1) != s[n - 1]
  }

  lemma {:induction false} XorIsParity(s: seq<bool>, n: nat)
    requires n <= |s|
    ensures XorOf(s, n) <==> CountHigh(s, n) % 2 == 1
  {
    if n > 0 {
      XorIsParity(s, n - 1);
    }
  }

  lemma FoldIsXor(x: byte)
    ensures ParityEven8(x) ==
            (((((((Bit(x, 0) != Bit(x, 1)) != Bit(x, 2)) != Bit(x, 3)) != Bit(x, 4)) != Bit(x, 5)) != Bit(x, 6))
             != Bit(x, 7))
  {
  }

  /** The three-step xor fold computes the parity of the eight bits. */
  lemma ParityCountsOnes(x: byte)
    ensures ParityEven8(x) <==> CountHigh(DataBits(x), 8) % 2 == 1
  {
    var s := DataBits(x);
    FoldIsXor(x);
    XorIsParity(s, 8);
    hide ParityEven8, Bit, CountHigh;
    assert XorOf(s, 1) == s[0];
    assert XorOf(s, 2) == (XorOf(s, 1) != s[1]);
    assert XorOf(s, 4) == ((XorOf(s, 2) != s[2]) != s[3]);
    assert XorOf(s, 6) == ((XorOf(s, 4) != s[4]) != s[5]);
    assert XorOf(s, 8) == ((XorOf(s, 6) != s[6]) != s[7]);
  }

  // -------- assembling a byte from its bits --------

  lemma BitOfInsert(x: byte, v: bool, i: nat)
    requires i < 8
    ensures Bit(InsertBit(x, v), i) == if i == 7 then v else Bit(x, i + 1)
  {
    if i == 0 {} else if i == 1 {} else if i == 2 {} else if i == 3 {}
    else if i == 4 {} else if i == 5 {} else if i == 6 {} else { assert i == 7; }
  }

  lemma BitsDetermineByte(x: byte, y: byte)
    requires forall i :: 0 <= i < 8 ==> Bit(x, i) == Bit(y, i)
    ensures x == y
  {
    assert Bit(x, 0) == Bit(y, 0) && Bit(x, 1) == Bit(y, 1) && Bit(x, 2) == Bit(y, 2) && Bit(x, 3) == Bit(y, 3);
    assert Bit(x, 4) == Bit(y, 4) && Bit(x, 5) == Bit(y, 5) && Bit(x, 6) == Bit(y, 6) && Bit(x, 7) == Bit(y, 7);
  }

  /** The top m bits of the register x are the bits s[..m]. */
  predicate Assembled(x: byte, s: seq<bool>, m: nat)
    requires m <= 8 <= |s|
  {
    forall i :: 8 - m <= i < 8 ==> Bit(x, i) == s[i + m - 8]
  }

  /** Shifting in bit m of s extends the assembled part by one. */
  lemma InsertExtends(x: byte, s: seq<bool>, m: nat)
    requires m < 8 <= |s| && Assembled(x, s, m)
    ensures Assembled(InsertBit(x, s[m]), s, m + 1)
  {
    forall i | 7 - m <= i < 8
      ensures Bit(InsertBit(x, s[m]), i) == s[i + m - 7]
    {
      BitOfInsert(x, s[m], i);
    }
  }

  /** The shift register after the first n bits of s have come in. */
  function ShiftIn(x: byte, s: seq<bool>, n: nat): byte
    requires n <= |s|
  {
    if n == 0 then x else InsertBit(ShiftIn(x, s, n - 1), s[n - 1])
  }

  lemma {:induction false} ShiftInAssembles(x: byte, s: seq<bool>, m: nat)
    requires m <= 8 <= |s|
    ensures Assembled(ShiftIn(x, s, m), s, m)
  {
    if m > 0 {
      ShiftInAssembles(x, s, m - 1);
      InsertExtends(ShiftIn(x, s, m - 1), s, m - 1);
    }
  }

  /** Eight shifts store eight bits, and eight shifts of d's own bits leave d,
      whatever the register held before. */
  lemma ShiftInRecovers(x: byte, s: seq<bool>, d: byte)
    requires |s| == 8
    ensures DataBits(ShiftIn(x, s, 8)) == s
    ensures s == DataBits(d) ==> ShiftIn(x, s, 8) == d
  {
    var r := ShiftIn(x, s, 8);
    ShiftInAssembles(x, s, 8);
    forall i | 0 <= i < 8
      ensures DataBits(r)[i] == s[i]
    {
      assert Bit(r, i) == s[i + 8 - 8];
    }
    if s == DataBits(d) {
      forall i | 0 <= i < 8
        ensures Bit(r, i) == Bit(d, i)
      {
        assert DataBits(r)[i] == DataBits(d)[i];
      }
      BitsDetermineByte(r, d);
    }
  }
}
