/** Byte buffers and little-endian numbers. */
module Bytes {
  import opened Common
  import opened Crc32

  /** The k low bytes of n, least significant first. */
  function LittleEndian(n: nat, k: nat): (r: seq<Byte>)
    ensures |r| == k
    decreases k
  {
    if k == 0 then [] else [n % 256] + LittleEndian(n / 256, k - 1)
  }

  function Number(b: seq<Byte>): nat
  {
    if b == [] then 0 else b[0] + 256 * Number(b[1..])
  }

  function Power(k: nat): nat
  {
    if k == 0 then 1 else 256 * Power(k - 1)
  }

  lemma {:induction false} NumberOfLittleEndian(n: nat, k: nat)
    requires n < Power(k)
    ensures Number(LittleEndian(n, k)) == n
    decreases k
  {
    if k > 0 {
      NumberOfLittleEndian(n / 256, k - 1);
      assert LittleEndian(n, k)[1..] == LittleEndian(n / 256, k - 1);
    }
  }

  lemma {:induction false} NumberInjective(a: seq<Byte>, b: seq<Byte>)
    requires |a| == |b| && Number(a) == Number(b)
    ensures a == b
  {
    if a != [] {
      NumberInjective(a[1..], b[1..]);
      assert a == [a[0]] + a[1..] && b == [b[0]] + b[1..];
    }
  }

  lemma Powers()
    ensures Power(4) == 0x1_0000_0000 && Power(8) == 0x1_0000_0000_0000_0000
  {
    assert Power(4) == 256 * (256 * (256 * 256));
  }

  lemma {:induction false} NumberBound(b: seq<Byte>)
    ensures Number(b) < Power(|b|)
  {
    if b != [] { NumberBound(b[1..]); }
  }

  /** A buffer with s copied over it at an offset. */
  function Patched(b: seq<Byte>, off: nat, s: seq<Byte>): (r: seq<Byte>)
    requires off + |s| <= |b|
    ensures |r| == |b|
  {
    b[..off] + s + b[off + |s|..]
  }

  /** copy_from_slice. */
  method Fill(a: array<Byte>, off: nat, s: seq<Byte>)
    requires off + |s| <= a.Length
    modifies a
    ensures a[..] == Patched(old(a[..]), off, s)
  {
    ghost var before := a[..];
    var i := 0;
    while i < |s|
      invariant i <= |s|
      invariant forall k | 0 <= k < a.Length && !(off <= k < off + i) :: a[k] == before[k]
      invariant forall k | off <= k < off + i :: a[k] == s[k - off]
    {
      a[off + i] := s[i];
      i := i + 1;
    }
    ghost var after := Patched(before, off, s);
    assert forall k | 0 <= k < a.Length :: a[k] == after[k];
  }

  /** What a patch leaves alone and what it puts in. */
  lemma PatchedSlices(b: seq<Byte>, off: nat, s: seq<Byte>, lo: nat, hi: nat)
    requires off + |s| <= |b| && lo <= hi <= |b|
    ensures Patched(b, off, s)[off..off + |s|] == s
    ensures hi <= off || off + |s| <= lo ==> Patched(b, off, s)[lo..hi] == b[lo..hi]
  {
  }

  /** Filling a zeroed buffer from the front. */
  lemma PatchedFront(pre: seq<Byte>, s: seq<Byte>, n: nat)
    requires |s| <= n
    ensures Patched(pre + Zeros(n), |pre|, s) == (pre + s) + Zeros(n - |s|)
  {
  }

  lemma SliceOfSlice(s: seq<Byte>, a: nat, b: nat, c: nat, d: nat)
    requires a <= b <= |s| && c <= d <= b - a
    ensures s[a..b][c..d] == s[a + c..a + d]
  {
    assert forall k | 0 <= k < d - c :: s[a..b][c..d][k] == s[a + c..a + d][k];
  }

  lemma SliceOfMiddle(pre: seq<Byte>, m: seq<Byte>, post: seq<Byte>, lo: nat, hi: nat)
    requires lo <= hi <= |m|
    ensures (pre + m + post)[|pre| + lo..|pre| + hi] == m[lo..hi]
  {
    assert forall k | 0 <= k < hi - lo :: (pre + m + post)[|pre| + lo..|pre| + hi][k] == m[lo..hi][k];
  }
}
