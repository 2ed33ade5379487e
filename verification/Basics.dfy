/** Bytes, their bits, and optional values. */
module Basics {

  datatype Option<+T> = None | Some(value: T)

  /** A byte as a bit vector, and as a number. */
  type byte = bv8
  type octet = x: int | 0 <= x < 256
  type uint16 = x: int | 0 <= x < 65536

  /** 1 & (d >> i). */
  function Bit(d: byte, i: nat): bool
    requires i < 8
  {
    match i
    case 0 => d & 1 == 1
    case 1 => (d >> 1) & 1 == 1
    case 2 => (d >> 2) & 1 == 1
    case 3 => (d >> 3) & 1 == 1
    case 4 => (d >> 4) & 1 == 1
    case 5 => (d >> 5) & 1 == 1
    case 6 => (d >> 6) & 1 == 1
    case 7 => (d >> 7) & 1 == 1
  }

  /** A remainder less than one round away from its number. */
  lemma Wrapped(x: int, n: nat)
    requires n > 0 && 0 <= x + n && x < 2 * n
    ensures x % n == if x < 0 then x + n else if x < n then x else x - n
  {
    var q, r := x / n, x % n;
    assert x == n * q + r;
    if q <= -2 {
      TimesOrdered(n, q, -2);
      assert false;
    } else if q >= 2 {
      TimesOrdered(n, 2, q);
      assert false;
    }
  }

  lemma TimesOrdered(n: nat, a: int, b: int)
    requires a <= b
    ensures n * a <= n * b
  {
  }
}
