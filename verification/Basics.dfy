/** Small definitions several modules share. */
module Basics {
  /** An absent or present value. */
  datatype Option<+T> = None | Some(value: T)

  /** C's fixed-width integers where they are counters or indices: Dafny checks that no operation on them overflows, so
      a wrap-around has to be written out. */
  newtype uint8 = x: int | 0 <= x < 256
  newtype uint16 = x: int | 0 <= x < 0x1_0000
  newtype uint32 = x: int | 0 <= x < 0x1_0000_0000
  newtype int16 = x: int | -0x8000 <= x < 0x8000

  function PowerOfTwo(n: nat): (p: nat)
    ensures p > 0
  {
    if n == 0 then 1 else 2 * PowerOfTwo(n - 1)
  }

  /** An integer as the byte that holds it, by its two hexadecimal digits. */
  function ByteOf(n: nat): bv8
    requires n < 256
  {
    JoinDigits((n / 16) as bv4, (n % 16) as bv4)
  }

  function JoinDigits(high: bv4, low: bv4): bv8 {
    (high as bv8 << 4) | low as bv8
  }

  lemma JoinDigitsInjective(a: bv4, b: bv4, c: bv4, d: bv4)
    ensures JoinDigits(a, b) == JoinDigits(c, d) ==> a == c && b == d
  {
  }

  lemma DigitIsExact(n: nat)
    requires n < 16
    ensures (n as bv4) as nat == n
  {
  }

  lemma BytesDiffer(m: nat, n: nat)
    requires m < 256 && n < 256 && m != n
    ensures ByteOf(m) != ByteOf(n)
  {
    hide JoinDigits;
    DigitIsExact(m / 16);
    DigitIsExact(n / 16);
    DigitIsExact(m % 16);
    DigitIsExact(n % 16);
    JoinDigitsInjective((m / 16) as bv4, (m % 16) as bv4, (n / 16) as bv4, (n % 16) as bv4);
  }

  function Join4(b0: bv8, b1: bv8, b2: bv8, b3: bv8): bv32 {
    b0 as bv32 | (b1 as bv32 << 8) | (b2 as bv32 << 16) | (b3 as bv32 << 24)
  }

  /** The bits of an unsigned int, by its four bytes. */
  function BitsOf(n: nat): bv32 {
    Join4(ByteOf(n % 256), ByteOf(n / 256 % 256), ByteOf(n / 0x1_0000 % 256), ByteOf(n / 0x100_0000 % 256))
  }

  lemma Join4Injective(a: bv8, b: bv8, c: bv8, d: bv8, w: bv8, x: bv8, y: bv8, z: bv8)
    ensures Join4(a, b, c, d) == Join4(w, x, y, z) ==> a == w && b == x && c == y && d == z
  {
  }

  lemma Recomposed(n: nat)
    requires n < 0x1_0000_0000
    ensures n == n % 256 + 256 * (n / 256 % 256) + 0x1_0000 * (n / 0x1_0000 % 256) + 0x100_0000 * (n / 0x100_0000 % 256)
  {
    assert n / 0x1_0000 == n / 256 / 256 && n / 0x100_0000 == n / 0x1_0000 / 256;
  }

  /** Different 32-bit numbers have different bits. */
  lemma BitsDiffer(m: nat, n: nat)
    requires m < 0x1_0000_0000 && n < 0x1_0000_0000 && m != n
    ensures BitsOf(m) != BitsOf(n)
  {
    hide Join4, ByteOf;
    var m0, m1, m2, m3 := m % 256, m / 256 % 256, m / 0x1_0000 % 256, m / 0x100_0000 % 256;
    var n0, n1, n2, n3 := n % 256, n / 256 % 256, n / 0x1_0000 % 256, n / 0x100_0000 % 256;
    Recomposed(m);
    Recomposed(n);
    Join4Injective(ByteOf(m0), ByteOf(m1), ByteOf(m2), ByteOf(m3), ByteOf(n0), ByteOf(n1), ByteOf(n2), ByteOf(n3));
    if m0 != n0 {
      BytesDiffer(m0, n0);
    } else if m1 != n1 {
      BytesDiffer(m1, n1);
    } else if m2 != n2 {
      BytesDiffer(m2, n2);
    } else {
      BytesDiffer(m3, n3);
    }
  }
}
