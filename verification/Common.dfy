/** Shared vocabulary. */
module Common {
  datatype Option<+T> = None | Some(value: T)

  type Byte = b: int | 0 <= b < 256

  const U64_MAX: nat := 0xFFFF_FFFF_FFFF_FFFF
  const U64_SIZE: nat := 0x1_0000_0000_0000_0000

  type U64 = n: nat | n <= U64_MAX

  /** Arithmetic on u64 as a release build does it. */
  function Wrap(n: nat): U64
  {
    n % U64_SIZE
  }

  const PAGE_SIZE: nat := 4096

  /** The natural numbers below n. */
  function Below(n: nat): (r: set<nat>)
    ensures forall i: nat :: i in r <==> i < n
    ensures |r| == n
  {
    if n == 0 then {} else Below(n - 1) + {n - 1}
  }
}
