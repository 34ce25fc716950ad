/** Numbers and the machine words that hold them. */
module Octets {
  import opened Common

  /** The eight bits of a byte, put together from its two halves. */
  function Bits(b: Byte): bv8
  {
    (((b / 16) as bv4) as bv8 << 4) | (((b % 16) as bv4) as bv8)
  }

  lemma HalfRoundTrip(h: int)
    requires 0 <= h < 16
    ensures (h as bv4) as int == h
  {
  }

  lemma HalvesDiffer(a: bv4, b: bv4, c: bv4, d: bv4)
    requires ((a as bv8) << 4) | (b as bv8) == ((c as bv8) << 4) | (d as bv8)
    ensures a == c && b == d
  {
  }

  lemma HalfInjective(a: int, b: int)
    requires 0 <= a < 16 && 0 <= b < 16 && a as bv4 == b as bv4
    ensures a == b
  {
    HalfRoundTrip(a);
    HalfRoundTrip(b);
  }

  lemma BitsOfHalves(a1: int, a0: int, b1: int, b0: int, va1: bv4, va0: bv4, vb1: bv4, vb0: bv4)
    requires 0 <= a1 < 16 && 0 <= a0 < 16 && 0 <= b1 < 16 && 0 <= b0 < 16
    requires va1 == a1 as bv4 && va0 == a0 as bv4 && vb1 == b1 as bv4 && vb0 == b0 as bv4
    requires ((va1 as bv8) << 4) | (va0 as bv8) == ((vb1 as bv8) << 4) | (vb0 as bv8)
    ensures a1 == b1 && a0 == b0
  {
    HalvesDiffer(va1, va0, vb1, vb0);
    HalfInjective(a1, b1);
    HalfInjective(a0, b0);
  }

  lemma BitsInjective(a: Byte, b: Byte)
    requires Bits(a) == Bits(b)
    ensures a == b
  {
    BitsOfHalves(a / 16, a % 16, b / 16, b % 16, (a / 16) as bv4, (a % 16) as bv4, (b / 16) as bv4, (b % 16) as bv4);
  }

  lemma AsNumberInjective(x: bv32, y: bv32)
    requires x as int == y as int
    ensures x == y
  {
    assert (x as int) as bv32 == x && (y as int) as bv32 == y;
  }
}
